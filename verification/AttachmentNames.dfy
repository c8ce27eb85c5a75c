/**
 Uploaded attachments (src-tauri/src/commands_conversation.rs): file names are sanitized, made unique
 ignoring case by probing numbered candidates, and written to one directory.
 */
module AttachmentNames {
  import opened Wrappers
  import opened Collections
  import opened Text

  // ---- Lower case ----

  /** Lower case of each character; digits, hyphens and dots stay as they are. */
  predicate Lowering(lower: char -> string) {
    && lower('-') == "-" && lower('.') == "."
    && forall c :: '0' <= c <= '9' ==> lower(c) == [c]
  }

  function Lower(s: string, lower: char -> string): string {
    if s == [] then [] else lower(s[0]) + Lower(s[1..], lower)
  }

  lemma {:induction false} LowerConcat(a: string, b: string, lower: char -> string)
    ensures Lower(a + b, lower) == Lower(a, lower) + Lower(b, lower)
  {
    if a == [] {
      assert a + b == b;
    } else {
      assert (a + b)[1..] == a[1..] + b;
      LowerConcat(a[1..], b, lower);
    }
  }

  // ---- Candidates ----

  /** Position of the last dot. */
  function LastDot(s: string): (r: Option<nat>)
    ensures r.Some? ==> r.value < |s| && s[r.value] == '.' && '.' !in s[r.value + 1..]
    ensures r.None? ==> '.' !in s
  {
    if s == [] then None
    else if s[|s| - 1] == '.' then Some(|s| - 1)
    else
      var r := LastDot(s[..|s| - 1]);
      assert s == s[..|s| - 1] + [s[|s| - 1]];
      assert r.Some? ==> s[r.value + 1..] == s[..|s| - 1][r.value + 1..] + [s[|s| - 1]];
      r
  }

  datatype NameParts = NameParts(stem: string, ext: Option<string>)

  /** `Path::file_stem` and `Path::extension` of a file name: a dot in front does not start an extension. */
  function Parts(name: string): NameParts {
    var d := LastDot(name);
    if d.None? || d.value == 0 then NameParts(name, None)
    else NameParts(name[..d.value], Some(name[d.value + 1..]))
  }

  function Digit(d: nat): (c: char)
    requires d < 10
    ensures '0' <= c <= '9'
  {
    ('0' as int + d) as char
  }

  function Decimal(n: nat): string {
    if n < 10 then [Digit(n)] else Decimal(n / 10) + [Digit(n % 10)]
  }

  /** The candidate for an index: the base name, then `stem-2.ext`, `stem-3.ext`, … */
  function Candidate(base: string, index: nat): string {
    var p := Parts(base);
    if index == 1 then base
    else if p.ext.Some? then p.stem + "-" + Decimal(index) + "." + p.ext.value
    else p.stem + "-" + Decimal(index)
  }

  lemma {:induction false} DecimalInjective(a: nat, b: nat)
    requires Decimal(a) == Decimal(b)
    ensures a == b
  {
    var s := Decimal(a);
    LastDigit(a);
    LastDigit(b);
    assert a % 10 == b % 10;
    if a >= 10 && b >= 10 {
      assert s[..|s| - 1] == Decimal(a / 10) == Decimal(b / 10);
      DecimalInjective(a / 10, b / 10);
    }
  }

  lemma {:induction false} LastDigit(n: nat)
    ensures Decimal(n) != [] && Decimal(n)[|Decimal(n)| - 1] == Digit(n % 10)
    ensures n >= 10 ==> |Decimal(n)| > 1 && Decimal(n)[..|Decimal(n)| - 1] == Decimal(n / 10)
    ensures n < 10 ==> |Decimal(n)| == 1
  {
    if n >= 10 {
      LastDigit(n / 10);
    }
  }

  lemma {:induction false} DecimalLower(n: nat, lower: char -> string)
    requires Lowering(lower)
    ensures Lower(Decimal(n), lower) == Decimal(n)
  {
    if n >= 10 {
      DecimalLower(n / 10, lower);
      LowerConcat(Decimal(n / 10), [Digit(n % 10)], lower);
    }
    assert Lower([Digit(n % 10)], lower) == [Digit(n % 10)];
  }

  /** Lower case of what follows the stem. */
  function Ending(base: string, lower: char -> string): string {
    var p := Parts(base);
    if p.ext.Some? then "." + Lower(p.ext.value, lower) else ""
  }

  lemma {:induction false} BaseLower(base: string, lower: char -> string)
    requires Lowering(lower)
    ensures Lower(base, lower) == Lower(Parts(base).stem, lower) + Ending(base, lower)
  {
    var p := Parts(base);
    if p.ext.Some? {
      assert base == p.stem + ("." + p.ext.value);
      LowerConcat(p.stem, "." + p.ext.value, lower);
      LowerConcat(".", p.ext.value, lower);
      assert Lower(".", lower) == ".";
    } else {
      assert Lower(base, lower) + "" == Lower(base, lower);
    }
  }

  lemma {:induction false} NumberLower(index: nat, lower: char -> string)
    requires Lowering(lower)
    ensures Lower("-" + Decimal(index), lower) == "-" + Decimal(index)
  {
    LowerConcat("-", Decimal(index), lower);
    assert Lower("-", lower) == "-";
    DecimalLower(index, lower);
  }

  lemma {:induction false} DottedLower(ext: string, lower: char -> string)
    requires Lowering(lower)
    ensures Lower("." + ext, lower) == "." + Lower(ext, lower)
  {
    LowerConcat(".", ext, lower);
    assert Lower(".", lower) == ".";
  }

  lemma {:induction false} ThreeLower(a: string, b: string, c: string, lower: char -> string)
    ensures Lower(a + b + c, lower) == Lower(a, lower) + Lower(b, lower) + Lower(c, lower)
  {
    LowerConcat(a + b, c, lower);
    LowerConcat(a, b, lower);
  }

  /** A numbered candidate as stem, number and ending. */
  lemma {:induction false} NumberedIs(base: string, index: nat)
    requires index != 1
    ensures var p := Parts(base);
      Candidate(base, index) ==
      p.stem + ("-" + Decimal(index)) + (if p.ext.Some? then "." + p.ext.value else "")
  {
    var p := Parts(base);
    var d := Decimal(index);
    assert p.stem + "-" + d == p.stem + ("-" + d);
    if p.ext.Some? {
      assert p.stem + ("-" + d) + "." + p.ext.value == p.stem + ("-" + d) + ("." + p.ext.value);
    } else {
      assert p.stem + ("-" + d) + "" == p.stem + ("-" + d);
    }
  }

  lemma {:induction false} NumberedLower(base: string, index: nat, lower: char -> string)
    requires Lowering(lower) && index != 1
    ensures Lower(Candidate(base, index), lower) ==
            Lower(Parts(base).stem, lower) + ("-" + Decimal(index)) + Ending(base, lower)
  {
    var p := Parts(base);
    var ending := if p.ext.Some? then "." + p.ext.value else "";
    NumberedIs(base, index);
    ThreeLower(p.stem, "-" + Decimal(index), ending, lower);
    NumberLower(index, lower);
    if p.ext.Some? {
      DottedLower(p.ext.value, lower);
    }
  }

  lemma {:induction false} Cancel(a: string, b: string, c: string, b': string)
    requires a + b + c == a + b' + c
    ensures b == b'
  {
    var s := a + b + c;
    assert |b| == |b'|;
    assert b == s[|a|..|a| + |b|] == b';
  }

  /** Candidates for different indexes differ, ignoring case. */
  lemma {:induction false} CandidatesDistinct(base: string, i: nat, j: nat, lower: char -> string)
    requires Lowering(lower) && 1 <= i < j
    ensures Lower(Candidate(base, i), lower) != Lower(Candidate(base, j), lower)
  {
    var stem, ending := Lower(Parts(base).stem, lower), Ending(base, lower);
    NumberedLower(base, j, lower);
    if i == 1 {
      BaseLower(base, lower);
      assert |stem + ("-" + Decimal(j)) + ending| > |stem + ending|;
    } else {
      NumberedLower(base, i, lower);
      if Lower(Candidate(base, i), lower) == Lower(Candidate(base, j), lower) {
        Cancel(stem, "-" + Decimal(i), ending, "-" + Decimal(j));
        assert ("-" + Decimal(i))[1..] == Decimal(i) && ("-" + Decimal(j))[1..] == Decimal(j);
        DecimalInjective(i, j);
      }
    }
  }

  // ---- Unique names ----

  /** What the set of used names compares: the candidate in lower case. */
  function Key(base: string, index: nat, lower: char -> string): string {
    Lower(Candidate(base, index), lower)
  }

  /** `name` is the first candidate whose lower case is free. */
  ghost predicate FirstFree(name: string, base: string, index: nat, used: set<string>, lower: char -> string) {
    && index >= 1 && name == Candidate(base, index) && Key(base, index, lower) !in used
    && forall j: nat :: 1 <= j < index ==> Key(base, j, lower) in used
  }

  /** If all candidates below an index are used, there are that many used names. */
  lemma {:induction false} Pigeonhole(
    base: string, index: nat, tried: set<string>, used: set<string>, lower: char -> string)
    requires Lowering(lower) && index >= 1 && tried <= used
    requires forall t, j: nat :: t in tried && 1 <= j < index ==> t != Key(base, j, lower)
    requires forall j: nat :: 1 <= j < index ==> Key(base, j, lower) in used
    ensures |tried| + index - 1 <= |used|
    decreases index
  {
    if index == 1 {
      SubsetSize(tried, used);
    } else {
      var last := index - 1;
      var key := Key(base, last, lower);
      assert key !in tried;
      forall j: nat | 1 <= j < last ensures key != Key(base, j, lower) {
        CandidatesDistinct(base, j, last, lower);
      }
      Pigeonhole(base, last, tried + {key}, used, lower);
    }
  }

  /** `unique_attachment_file_name`: at most one probe more than there are used names. */
  method UniqueName(base: string, used: set<string>, lower: char -> string)
    returns (name: string, used': set<string>, ghost index: nat)
    requires Lowering(lower)
    ensures FirstFree(name, base, index, used, lower) && index <= |used| + 1
    ensures used' == used + {Lower(name, lower)}
  {
    var i := 1;
    Pigeonhole(base, 1, {}, used, lower);
    while true
      invariant 1 <= i <= |used| + 1
      invariant forall j: nat :: 1 <= j < i ==> Key(base, j, lower) in used
      decreases |used| + 1 - i
    {
      name := Candidate(base, i);
      if Lower(name, lower) !in used {
        used' := used + {Lower(name, lower)};
        index := i;
        return;
      }
      i := i + 1;
      Pigeonhole(base, i, {}, used, lower);
    }
  }

  // ---- Sanitized names ----

  /** `char::is_control`. */
  predicate IsControl(c: char) {
    c < ' ' || '\U{7F}' <= c <= '\U{9F}'
  }

  function SlashesOnly(s: string): (r: string)
    ensures |r| == |s|
  {
    seq(|s|, i requires 0 <= i < |s| => if s[i] == '\\' then '/' else s[i])
  }

  /** What follows the last slash. */
  function LastSegment(s: string): (r: string)
    ensures '/' !in r && (forall c :: c in r ==> c in s)
  {
    if s == [] || s[|s| - 1] == '/' then [] else LastSegment(s[..|s| - 1]) + [s[|s| - 1]]
  }

  /** `sanitize_attachment_file_name`. */
  function Sanitized(name: string): Option<string> {
    var file := Trim(LastSegment(SlashesOnly(Trim(name))));
    if file == "" || file == "." || file == ".." || exists c :: c in file && IsControl(c) then None else Some(file)
  }

  /** A sanitized name names one entry of the directory it is joined to. */
  lemma {:induction false} SanitizedStaysInside(name: string)
    requires Sanitized(name).Some?
    ensures var file := Sanitized(name).value;
      && file !in {"", ".", ".."} && '/' !in file && '\\' !in file && Trimmed(file)
      && forall c :: c in file ==> !IsControl(c)
    ensures Sanitized(Sanitized(name).value) == Sanitized(name)
  {
    var flat := SlashesOnly(Trim(name));
    var segment := LastSegment(flat);
    var file := Trim(segment);
    assert '\\' !in flat;
    TrimFacts(segment);
    TrimStartFacts(segment);
    TrimEndFacts(TrimStart(segment));
    assert forall c :: c in file ==> c in segment;
    TrimFacts(file);
    assert SlashesOnly(file) == file;
    WholeSegment(file);
  }

  lemma {:induction false} WholeSegment(s: string)
    requires '/' !in s
    ensures LastSegment(s) == s
  {
    if s != [] {
      assert s == s[..|s| - 1] + [s[|s| - 1]];
      WholeSegment(s[..|s| - 1]);
    }
  }
}
