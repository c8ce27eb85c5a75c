/**
 The rules of attachment uploads, said about names, sizes and failures alone: what a sanitized name is, how a
 renamed attachment is called, and which failure a batch reports.
 */
module AttachmentRules {
  import opened Wrappers
  import opened Text
  import opened AttachmentNames
  import opened AttachmentBatch
  import Base64

  // ---- Sanitized names ----

  predicate Separator(c: char) {
    c == '/' || c == '\\'
  }

  /** `segment` is what stands behind the last slash of either kind. */
  ghost predicate LastPart(path: string, segment: string) {
    && |segment| <= |path| && path[|path| - |segment|..] == segment
    && (forall c :: c in segment ==> !Separator(c))
    && (|segment| < |path| ==> Separator(path[|path| - |segment| - 1]))
  }

  lemma {:induction false} LastSegmentIs(s: string, k: nat)
    requires k <= |s| && '/' !in s[|s| - k..] && (k < |s| ==> s[|s| - k - 1] == '/')
    ensures LastSegment(s) == s[|s| - k..]
  {
    if k > 0 {
      var init, last := s[..|s| - 1], s[|s| - 1];
      assert s[|s| - k..] == init[|init| - (k - 1)..] + [last];
      LastSegmentIs(init, k - 1);
    }
  }

  lemma {:induction false} FlatSegment(path: string, segment: string)
    requires LastPart(path, segment)
    ensures LastSegment(SlashesOnly(path)) == segment
  {
    var flat, start := SlashesOnly(path), |path| - |segment|;
    forall i | 0 <= i < |segment| ensures flat[start..][i] == segment[i] && segment[i] != '/' {
      assert segment[i] == path[start..][i] == path[start + i] && segment[i] in segment;
    }
    assert flat[start..] == segment;
    LastSegmentIs(flat, |segment|);
  }

  /** A name is accepted exactly if its last part, trimmed, is a plain entry without control characters, and as that. */
  lemma {:induction false} SanitizedIs(name: string, segment: string)
    requires LastPart(Trim(name), segment)
    ensures var file := Trim(segment);
      Sanitized(name) ==
      if file !in {"", ".", ".."} && forall c :: c in file ==> ' ' <= c < '\U{7F}' || c > '\U{9F}' then Some(file) else None
  {
    FlatSegment(Trim(name), segment);
  }

  // ---- Renamed attachments ----

  /** The number that decimal digits denote. */
  function NumberOf(digits: string): nat {
    if digits == [] then 0
    else
      var last := digits[|digits| - 1];
      10 * NumberOf(digits[..|digits| - 1]) + if '0' <= last <= '9' then last as int - '0' as int else 0
  }

  lemma {:induction false} DecimalDenotes(n: nat)
    ensures NumberOf(Decimal(n)) == n && forall c :: c in Decimal(n) ==> '0' <= c <= '9'
  {
    LastDigit(n);
    if n >= 10 {
      DecimalDenotes(n / 10);
      assert Decimal(n) == Decimal(n / 10) + [Digit(n % 10)];
    } else {
      assert Decimal(n)[..0] == [];
    }
  }

  lemma {:induction false} LastDotIs(s: string, p: nat)
    requires p < |s| && s[p] == '.' && '.' !in s[p + 1..]
    ensures LastDot(s) == Some(p)
  {
    if p < |s| - 1 {
      var init := s[..|s| - 1];
      assert s[p + 1..] == init[p + 1..] + [s[|s| - 1]];
      LastDotIs(init, p);
    }
  }

  lemma {:induction false} PartsWithExtension(stem: string, ext: string)
    requires stem != "" && '.' !in ext
    ensures Parts(stem + "." + ext) == NameParts(stem, Some(ext))
  {
    var name := stem + "." + ext;
    assert name[|stem| + 1..] == ext && name[..|stem|] == stem;
    LastDotIs(name, |stem|);
  }

  /** The candidate is the number between a front, joined by a hyphen, and a back. */
  ghost predicate Numbered(candidate: string, front: string, index: nat, back: string) {
    exists digits :: candidate == front + "-" + digits + back && NumberOf(digits) == index && OnlyDigits(digits)
  }

  predicate OnlyDigits(s: string) {
    forall c :: c in s ==> '0' <= c <= '9'
  }

  /** A numbered name: the number goes between stem and extension, and the extension stays. */
  lemma {:induction false} NumberedName(stem: string, ext: string, index: nat)
    requires stem != "" && '.' !in ext && index != 1
    ensures Numbered(Candidate(stem + "." + ext, index), stem, index, "." + ext)
  {
    PartsWithExtension(stem, ext);
    DecimalDenotes(index);
    assert stem + "-" + Decimal(index) + "." + ext == stem + "-" + Decimal(index) + ("." + ext);
  }

  /** A name without a dot, or with its only dot in front, gets the number at its end. */
  lemma {:induction false} NumberedPlainName(base: string, index: nat)
    requires base == "" || '.' !in base[1..]
    requires index != 1
    ensures Numbered(Candidate(base, index), base, index, "")
  {
    DecimalDenotes(index);
    if base != "" && base[0] == '.' {
      LastDotIs(base, 0);
    } else {
      assert '.' !in base by {
        assert base != "" ==> base == [base[0]] + base[1..];
      }
    }
    assert base + "-" + Decimal(index) == base + "-" + Decimal(index) + "";
  }

  /** Whatever number a file gets, its type is the one that was checked. */
  lemma {:induction false} RenamedKeepsType(base: string, index: nat, rules: Rules)
    requires Parts(base).ext.Some?
    ensures Extension(Candidate(base, index), rules) == Extension(base, rules)
  {
    var p := Parts(base);
    if index != 1 {
      assert p.stem + "-" + Decimal(index) != "";
      PartsWithExtension(p.stem + "-" + Decimal(index), p.ext.value);
    }
  }

  // ---- The checks of one file ----

  /**
   A file passes exactly if its name can be kept, its type is supported, and it holds 1 byte to 25 MiB. The
   type is looked at before the data: a file of another type is refused as such even if it is unreadable.
   */
  lemma {:induction false} CheckIs(file: Input, rules: Rules)
    ensures var name, data, r := Sanitized(file.name), Base64.Decoded(file.data), Check(file, rules);
      var supported := name.Some? && rules.allowed(Extension(name.value, rules));
      && (r == Err(UnsupportedType(file.name)) <==> name.Some? && !supported)
      && (r == Err(TooLarge(file.name)) <==> supported && data.Ok? && |data.value| > 26_214_400)
      && (r == Err(Unreadable(file.name, None)) <==> name.None? || (supported && data == Ok([])))
      && (forall e :: r == Err(Unreadable(file.name, Some(e))) <==> supported && data == Err(e))
      && (r.Ok? <==> supported && data.Ok? && 1 <= |data.value| <= 26_214_400)
      && (r.Ok? ==> r.value == Checked(name.value, data.value))
  {
  }

  // ---- The failure of a batch ----

  /** The files before `i` pass, and their sizes stay within the limit. */
  predicate PassUpTo(checks: seq<Verdict>, i: nat) {
    i <= |checks| && AllPass(checks[..i]) && Size(checks[..i]) <= 104_857_600
  }

  /**
   A batch of more than ten files fails as such. Otherwise the first file decides that does not pass its own
   checks, or with which the sizes exceed 100 MiB.
   */
  lemma {:induction false} FailureIs(checks: seq<Verdict>, i: nat)
    requires i < |checks| && PassUpTo(checks, i) && !PassUpTo(checks, i + 1)
    ensures Outcome(checks) ==
      Some(if |checks| > 10 then CountExceeded else if checks[i].Err? then checks[i].error else TotalTooLarge)
  {
    SizeSnoc(checks, i);
    assert checks[..i + 1] == checks[..i] + [checks[i]];
    FirstFailureIs(checks, i, 0);
  }

  lemma {:induction false} SizeSnoc(checks: seq<Verdict>, i: nat)
    requires i < |checks|
    ensures Size(checks[..i + 1]) == Size(checks[..i]) + |Contents(checks[i])|
  {
    if i > 0 {
      SizeSnoc(checks[1..], i - 1);
      assert checks[..i + 1][1..] == checks[1..][..i] && checks[..i][1..] == checks[1..][..i - 1];
    } else {
      assert checks[..1][1..] == [];
    }
  }

  lemma {:induction false} FirstFailureIs(checks: seq<Verdict>, i: nat, total: nat)
    requires i < |checks| && AllPass(checks[..i]) && total + Size(checks[..i]) <= MAX_TOTAL
    requires checks[i].Err? || total + Size(checks[..i]) + |Contents(checks[i])| > MAX_TOTAL
    ensures FirstFailure(checks, total) == Some(if checks[i].Err? then checks[i].error else TotalTooLarge)
  {
    if i > 0 {
      assert checks[0] == checks[..i][0];
      assert checks[..i][1..] == checks[1..][..i - 1];
      assert forall k :: 0 < k < i ==> checks[..i][k] == checks[1..][..i - 1][k - 1];
      FirstFailureIs(checks[1..], i - 1, total + |Contents(checks[0])|);
    }
  }
}
