/**
 Round trips of the front matter printer: every body comes back, and every multi-line field comes back
 exactly when none of its lines ends in a carriage return.
 */
module FrontmatterTheorems {
  import opened Wrappers
  import opened Text
  import opened Frontmatter

  // ---- Printed lines ----

  lemma {:induction false} TrimKeepsOut(c: char, s: string)
    requires c !in s
    ensures c !in Trim(s)
  {
    TrimStartFacts(s);
    TrimEndFacts(TrimStart(s));
  }

  lemma {:induction false} EscapedKeepsOut(s: string)
    requires '\n' !in s
    ensures '\n' !in Escaped(s)
  {
    if s != [] {
      EscapedKeepsOut(s[1..]);
    }
  }

  /** A printed scalar stays on its line, is not empty, and does not end in a carriage return. */
  lemma {:induction false} ScalarShape(v: string)
    requires '\n' !in v
    ensures var y := YamlScalar(Trim(v));
      && '\n' !in y && y != "" && y[|y| - 1] != '\r' && !IsWhitespace(y[0]) && y[0] != '|' && y[0] != '>'
  {
    TrimKeepsOut('\n', v);
    EscapedKeepsOut(Trim(v));
  }

  lemma {:induction false} RustLinesPlain(s: string)
    ensures forall i :: 0 <= i < |RustLines(s)| ==> '\n' !in RustLines(s)[i]
    ensures s != "" ==> RustLines(s) != []
    decreases |s|
  {
    if s != "" {
      var e := LineEnd(s);
      if e < |s| {
        RustLinesPlain(s[e + 1..]);
      } else {
        assert s[..e] == s;
      }
    }
  }

  /** No printed line contains a line feed or reads as a delimiter. */
  predicate Plain(line: string) {
    '\n' !in line && !IsDelimiter(line, true)
  }

  predicate AllPlain(lines: seq<string>) {
    forall i :: 0 <= i < |lines| ==> Plain(lines[i])
  }

  lemma {:induction false} HeaderPlain(key: string, rest: string)
    requires '\n' !in key && '\n' !in rest
    ensures Plain(key + ": " + rest)
  {
    var line := key + ": " + rest;
    assert line[|key|] == ':';
    assert ':' in line;
  }

  lemma {:induction false} FieldLinesPlain(key: string, value: string)
    requires '\n' !in key
    ensures AllPlain(FieldLines(key, value))
  {
    if '\n' in value {
      HeaderPlain(key, "|");
      RustLinesPlain(value);
      var lines := FieldLines(key, value);
      forall i | 0 <= i < |lines| ensures Plain(lines[i]) {
        if i > 0 {
          assert lines[i] == "  " + RustLines(value)[i - 1];
          assert lines[i][0] == ' ';
        } else {
          assert lines[0] == key + ": " + "|";
        }
      }
    } else {
      ScalarShape(value);
      HeaderPlain(key, YamlScalar(Trim(value)));
    }
  }

  predicate KeysOnOneLine(updates: seq<Update>) {
    forall i :: 0 <= i < |updates| ==> '\n' !in updates[i].key
  }

  lemma {:induction false} DocumentPlain(updates: seq<Update>)
    requires KeysOnOneLine(updates)
    ensures AllPlain(DocumentLines(updates))
  {
    if updates != [] {
      FieldLinesPlain(updates[0].key, Shown(updates[0]));
      DocumentPlain(updates[1..]);
    }
  }

  // ---- The body ----

  lemma {:induction false} DelimiterHere(body: string)
    ensures FirstDelimiter("---\n" + body) == Some(0)
  {
    var text := "---\n" + body;
    assert text[..3] == "---" && text[3] == '\n';
    LineEndIs(text, 3);
  }

  lemma {:induction false} DelimiterStep(s: string, l: string, rest: string, p: nat)
    requires LineEnd(s) == |l| && |l| < |s| && s[..|l|] == l && s[|l| + 1..] == rest
    requires Plain(l) && FirstDelimiter(rest) == Some(p)
    ensures FirstDelimiter(s) == Some(|l| + 1 + p)
  {
  }

  lemma {:induction false} UnlinesCons(lines: seq<string>, tail: string)
    requires lines != []
    ensures Unlines(lines) + tail == lines[0] + "\n" + (Unlines(lines[1..]) + tail)
  {
  }

  /** Lines followed by a tail, as one recursion. */
  function Before(lines: seq<string>, tail: string): string {
    if lines == [] then tail else lines[0] + "\n" + Before(lines[1..], tail)
  }

  lemma {:induction false} BeforeIs(lines: seq<string>, tail: string)
    ensures Before(lines, tail) == Unlines(lines) + tail
  {
    if lines == [] {
      assert Unlines(lines) + tail == tail;
    } else {
      BeforeIs(lines[1..], tail);
      UnlinesCons(lines, tail);
    }
  }

  /** The first delimiter of the text is where the tail begins. */
  ghost predicate DelimitedAt(text: string, tail: string) {
    |tail| <= |text| && FirstDelimiter(text) == Some(|text| - |tail|)
  }

  lemma {:induction false} DelimiterAfterLine(l: string, rest: string, tail: string)
    requires Plain(l) && DelimitedAt(rest, tail)
    ensures DelimitedAt(l + "\n" + rest, tail)
  {
    FirstLine(l, rest);
    DelimiterStep(l + "\n" + rest, l, rest, |rest| - |tail|);
  }

  lemma {:induction false} FirstDelimiterAfter(lines: seq<string>, tail: string)
    requires AllPlain(lines) && FirstDelimiter(tail) == Some(0)
    ensures DelimitedAt(Before(lines, tail), tail)
  {
    if lines != [] {
      FirstDelimiterAfter(lines[1..], tail);
      DelimiterAfterLine(lines[0], Before(lines[1..], tail), tail);
    }
  }

  lemma {:induction false} OpenedOf(rest: string)
    ensures Opened("---\n" + rest) == Some(rest)
  {
    var content := "---\n" + rest;
    assert content[3] == '\n';
    assert content[..4] == "---\n" && content[4..] == rest;
    assert "---\r\n"[3] == '\r';
    assert |content| >= 5 ==> content[..5][3] == '\n';
  }

  lemma {:induction false} SkipNewlineOf(body: string)
    ensures SkipNewline("\n" + body) == body
  {
    var text := "\n" + body;
    assert text[..1] == "\n" && text[1..] == body;
    assert |text| >= 2 ==> text[..2][0] == '\n';
  }

  lemma {:induction false} Regroup(a: string, b: string, c: string, d: string)
    ensures a + b + c + d == a + (b + (c + d))
  {
  }

  /** The parts of an opened document whose delimiter line follows `printed`. */
  lemma {:induction false} SplitAt(content: string, rest: string, printed: string, body: string)
    requires Opened(content) == Some(rest) && FirstDelimiter(rest) == Some(|printed|)
    requires rest[..|printed|] == printed && SkipNewline(rest[|printed| + 3..]) == body
    ensures SplitByLines(content) == Some(Parts(StripNewline(printed), body))
  {
  }

  lemma {:induction false} BodyAfter(printed: string, tail: string, body: string)
    requires tail == "---\n" + body
    ensures (printed + tail)[..|printed|] == printed && SkipNewline((printed + tail)[|printed| + 3..]) == body
  {
    assert (printed + tail)[|printed| + 3..] == tail[3..];
    assert tail[3..] == "\n" + body;
    SkipNewlineOf(body);
  }

  lemma {:induction false} SplitPrinted(printed: string, tail: string, body: string)
    requires tail == "---\n" + body && DelimitedAt(printed + tail, tail)
    ensures SplitByLines("---\n" + (printed + tail)) == Some(Parts(StripNewline(printed), body))
  {
    OpenedOf(printed + tail);
    BodyAfter(printed, tail, body);
    SplitAt("---\n" + (printed + tail), printed + tail, printed, body);
  }

  /** Splitting a printed document returns every body unchanged, delimiter lines in it included. */
  lemma {:induction false} SplitReturnsBody(updates: seq<Update>, body: string)
    requires KeysOnOneLine(updates)
    ensures SplitByLines(Rendered(updates, body)) ==
            Some(Parts(StripNewline(Unlines(DocumentLines(updates))), body))
  {
    var lines := DocumentLines(updates);
    DocumentPlain(updates);
    DelimiterHere(body);
    FirstDelimiterAfter(lines, "---\n" + body);
    BeforeIs(lines, "---\n" + body);
    SplitPrinted(Unlines(lines), "---\n" + body, body);
    Regroup("---\n", Unlines(lines), "---\n", body);
  }

  // ---- Line segmentation ----

  function StripAll(lines: seq<string>): seq<string> {
    seq(|lines|, i requires 0 <= i < |lines| => StripCr(lines[i]))
  }

  lemma {:induction false} DropCrLine(l: string, rest: string)
    requires '\n' !in l
    ensures DropCr(l + "\n" + rest) == StripCr(l) + "\n" + DropCr(rest)
  {
    var text := l + "\n" + rest;
    if l == [] {
      assert text[1..] == rest;
    } else if l == "\r" {
      assert text[2..] == rest;
    } else {
      var tail := l[1..];
      assert text[1..] == tail + "\n" + rest;
      DropCrLine(tail, rest);
      assert StripCr(l) == [l[0]] + StripCr(tail);
    }
  }

  lemma {:induction false} DropCrPlain(x: string)
    requires '\n' !in x
    ensures DropCr(x) == x
  {
    if x != [] {
      DropCrPlain(x[1..]);
    }
  }

  lemma {:induction false} SplitLinesLine(l: string, rest: string)
    requires '\n' !in l
    ensures SplitLines(l + "\n" + rest) == [l] + SplitLines(rest)
    ensures SplitLines(l) == [l]
  {
    FirstLine(l, rest);
    assert l[..|l|] == l;
    LineEndIs(l, |l|);
  }

  lemma {:induction false} SegmentStep(l: string, rest: string)
    requires '\n' !in l
    ensures SplitLines(DropCr(l + "\n" + rest)) == [StripCr(l)] + SplitLines(DropCr(rest))
  {
    DropCrLine(l, rest);
    SplitLinesLine(StripCr(l), DropCr(rest));
  }

  lemma {:induction false} SegmentsOf(init: seq<string>, last: string)
    requires AllPlain(init) && '\n' !in last
    ensures SplitLines(DropCr(Before(init, last))) == StripAll(init) + [last]
  {
    if init == [] {
      DropCrPlain(last);
      SplitLinesLine(last, "");
    } else {
      SegmentsOf(init[1..], last);
      SegmentStep(init[0], Before(init[1..], last));
      StripAllSnoc(init, last);
    }
  }

  lemma {:induction false} StripAllSnoc(init: seq<string>, last: string)
    requires init != []
    ensures StripAll(init) + [last] == [StripCr(init[0])] + (StripAll(init[1..]) + [last])
  {
  }

  lemma {:induction false} NonEmptyKeeps(lines: seq<string>)
    requires forall i :: 0 <= i < |lines| ==> lines[i] != ""
    ensures NonEmpty(lines) == lines
  {
    if lines != [] {
      NonEmptyKeeps(lines[1..]);
    }
  }

  lemma {:induction false} StripNewlineCr(t: string)
    ensures StripNewline(t + "\r\n") == t
  {
    var text := t + "\r\n";
    assert text[|text| - 2..] == "\r\n" && text[..|text| - 2] == t;
  }

  lemma {:induction false} StripNewlineLf(t: string)
    requires !EndsInCr(t)
    ensures StripNewline(t + "\n") == t
  {
    var text := t + "\n";
    assert text[|text| - 1..] == "\n" && text[..|text| - 1] == t;
    if t != [] {
      assert text[|text| - 2..][0] == t[|t| - 1];
    }
  }

  lemma {:induction false} EndsInCrAfter(before: string, l: string)
    requires before == "" || before[|before| - 1] == '\n'
    ensures EndsInCr(before + l) <==> EndsInCr(l)
  {
    assert l == [] ==> before + l == before;
  }

  lemma {:induction false} StripNewlineLine(before: string, l: string)
    requires before == "" || before[|before| - 1] == '\n'
    ensures StripNewline(before + l + "\n") == before + StripCr(l)
  {
    if EndsInCr(l) {
      var m := l[..|l| - 1];
      assert l == m + "\r";
      StripCrOf(m);
      assert before + l + "\n" == (before + m) + "\r\n";
      StripNewlineCr(before + m);
    } else {
      EndsInCrAfter(before, l);
      StripNewlineLf(before + l);
      StripCrCount(l);
    }
  }

  lemma {:induction false} StripNewlineUnlines(init: seq<string>, l: string)
    requires AllPlain(init) && '\n' !in l
    ensures StripNewline(Unlines(init + [l])) == Unlines(init) + StripCr(l)
  {
    UnlinesConcat(init, [l]);
    UnlinesEnds(init);
    assert Unlines([l]) == l + "\n";
    assert Unlines(init) + (l + "\n") == Unlines(init) + l + "\n";
    StripNewlineLine(Unlines(init), l);
  }

  lemma {:induction false} UnlinesEnds(lines: seq<string>)
    ensures Unlines(lines) == "" || Unlines(lines)[|Unlines(lines)| - 1] == '\n'
  {
    if lines != [] {
      UnlinesEnds(lines[1..]);
    }
  }

  /** The printed lines come back one by one, each without one trailing carriage return. */
  lemma {:induction false} PrintedLinesReadBack(lines: seq<string>)
    requires AllPlain(lines) && forall i :: 0 <= i < |lines| ==> StripCr(lines[i]) != ""
    ensures FrontLines(StripNewline(Unlines(lines))) == StripAll(lines)
  {
    if lines == [] {
      assert StripNewline(Unlines(lines)) == "" && DropCr("") == "";
      assert SplitLines("") == [""] && NonEmpty([""]) == NonEmpty([]);
    } else {
      var init, l := lines[..|lines| - 1], lines[|lines| - 1];
      assert lines == init + [l];
      StripNewlineUnlines(init, l);
      SegmentsOf(init, StripCr(l));
      BeforeIs(init, StripCr(l));
      assert StripAll(lines) == StripAll(init) + [StripCr(l)];
      NonEmptyKeeps(StripAll(lines));
    }
  }

  // ---- Fields ----

  /** A key that survives as it is: trimmed, not empty, without colons and line feeds. */
  predicate GoodKey(key: string) {
    key != "" && Trimmed(key) && ':' !in key && '\n' !in key
  }

  predicate GoodUpdates(updates: seq<Update>) {
    && (forall i :: 0 <= i < |updates| ==> GoodKey(updates[i].key))
    && (forall i, j :: 0 <= i < j < |updates| ==> updates[i].key != updates[j].key)
  }

  lemma {:induction false} ColonIs(s: string, k: nat)
    requires k < |s| && s[k] == ':' && ':' !in s[..k]
    ensures Colon(s) == Some(k)
  {
    if k > 0 {
      assert s[..k] == [s[0]] + s[1..][..k - 1];
      ColonIs(s[1..], k - 1);
    }
  }

  lemma {:induction false} HeaderKey(key: string, rest: string)
    requires GoodKey(key)
    ensures TopLevelKey(key + ": " + rest) == Some(key) && Colon(key + ": " + rest) == Some(|key|)
    ensures (key + ": " + rest)[|key| + 1..] == " " + rest
  {
    var line := key + ": " + rest;
    assert line[..|key|] == key && line[0] == key[0];
    ColonIs(line, |key|);
    TrimFacts(key);
  }

  /** The lines of one printed field as they are read back. */
  function ReadLines(u: Update): seq<string> {
    StripAll(FieldLines(u.key, Shown(u)))
  }

  function AllReadLines(updates: seq<Update>): seq<string> {
    if updates == [] then [] else ReadLines(updates[0]) + AllReadLines(updates[1..])
  }

  function HeaderRest(u: Update): string {
    if '\n' in Shown(u) then "|" else YamlScalar(Trim(Shown(u)))
  }

  lemma {:induction false} HeaderKept(key: string, rest: string)
    requires rest != "" && rest[|rest| - 1] != '\r'
    ensures StripCr(key + ": " + rest) == key + ": " + rest
  {
    var h := key + ": " + rest;
    assert h[|h| - 1] == rest[|rest| - 1];
    StripCrCount(h);
  }

  lemma {:induction false} IndentedRead(l: string)
    ensures TopLevelKey(StripCr("  " + l)).None? && StripCr("  " + l) != ""
  {
    var line := "  " + l;
    assert line[0] == ' ' && |line| >= 2;
    assert StripCr(line)[0] == ' ';
  }

  /** Only the first line of a field is at top level, and it carries the key. */
  lemma {:induction false} ReadLinesShape(u: Update)
    requires GoodKey(u.key)
    ensures var g := ReadLines(u);
      && g != [] && g[0] == u.key + ": " + HeaderRest(u) && TopLevelKey(g[0]) == Some(u.key)
      && (forall i :: 1 <= i < |g| ==> TopLevelKey(g[i]).None?)
      && (forall i :: 0 <= i < |g| ==> g[i] != "")
  {
    var g, lines := ReadLines(u), RustLines(Shown(u));
    HeaderKey(u.key, HeaderRest(u));
    if '\n' !in Shown(u) {
      ScalarShape(Shown(u));
    }
    HeaderKept(u.key, HeaderRest(u));
    forall i | 1 <= i < |g| ensures TopLevelKey(g[i]).None? && g[i] != "" {
      assert g[i] == StripCr("  " + lines[i - 1]);
      IndentedRead(lines[i - 1]);
    }
  }

  lemma {:induction false} StripAllConcat(a: seq<string>, b: seq<string>)
    ensures StripAll(a + b) == StripAll(a) + StripAll(b)
  {
  }

  lemma {:induction false} DocumentReadLines(updates: seq<Update>)
    requires GoodUpdates(updates)
    ensures StripAll(DocumentLines(updates)) == AllReadLines(updates)
    ensures forall i :: 0 <= i < |AllReadLines(updates)| ==> AllReadLines(updates)[i] != ""
  {
    if updates != [] {
      DocumentReadLines(updates[1..]);
      StripAllConcat(FieldLines(updates[0].key, Shown(updates[0])), DocumentLines(updates[1..]));
      ReadLinesShape(updates[0]);
    }
  }

  /** The source value that the printed lines of a field give. */
  function FieldValue(u: Update, fields: map<string, string>): string {
    SourceValue(ReadLines(u), Lookup(fields, u.key)).GetOr("")
  }

  function Recovered(updates: seq<Update>, fields: map<string, string>): map<string, string> {
    if updates == [] then map[] else map[updates[0].key := FieldValue(updates[0], fields)] + Recovered(updates[1..], fields)
  }

  lemma {:induction false} NextFieldIs(lines: seq<string>, start: nat, n: nat)
    requires start <= n <= |lines| && forall i :: start <= i < n ==> TopLevelKey(lines[i]).None?
    requires n < |lines| ==> TopLevelKey(lines[n]).Some?
    ensures NextField(lines, start) == n
    decreases n - start
  {
    if start < n {
      NextFieldIs(lines, start + 1, n);
    }
  }

  lemma {:induction false} EntryOf(u: Update, fields: map<string, string>)
    requires GoodKey(u.key)
    ensures Entry(ReadLines(u), fields) == map[u.key := FieldValue(u, fields)]
    ensures SourceValue(ReadLines(u), Lookup(fields, u.key)).Some?
  {
    ReadLinesShape(u);
    HeaderKey(u.key, HeaderRest(u));
  }

  lemma {:induction false} SourcesStep(lines: seq<string>, i: nat, g: seq<string>, n: nat, fields: map<string, string>)
    requires i < n <= |lines| && TopLevelKey(lines[i]).Some? && NextField(lines, i + 1) == n && lines[i..n] == g
    ensures Sources(lines, i, fields) == Entry(g, fields) + Sources(lines, n, fields)
  {
  }

  /** The lines `g` belong to one field. */
  predicate OneField(g: seq<string>) {
    g != [] && TopLevelKey(g[0]).Some? && forall i :: 1 <= i < |g| ==> TopLevelKey(g[i]).None?
  }

  predicate StartsField(lines: seq<string>) {
    lines == [] || TopLevelKey(lines[0]).Some?
  }

  /** Where the lines `g` of a field lie in all lines, and what follows them. */
  lemma {:induction false} GroupAt(lines: seq<string>, i: nat, g: seq<string>, rest: seq<string>)
    requires i <= |lines| && lines[i..] == g + rest && OneField(g) && StartsField(rest)
    ensures var next := i + |g|;
      && next <= |lines| && lines[next..] == rest
      && i < |lines| && lines[i] == g[0] && lines[i..next] == g && NextField(lines, i + 1) == next
  {
    var next := i + |g|;
    assert |lines| - i == |g| + |rest|;
    assert forall k :: i <= k < |lines| ==> lines[k] == (g + rest)[k - i];
    forall k | i + 1 <= k < next ensures TopLevelKey(lines[k]).None? {
      assert lines[k] == g[k - i];
    }
    if next < |lines| {
      assert lines[next] == rest[0];
    }
    NextFieldIs(lines, i + 1, next);
  }

  lemma {:induction false} FieldStep(
    lines: seq<string>, i: nat, g: seq<string>, n: nat, rest: seq<string>, fields: map<string, string>)
    requires n == i + |g| && i <= |lines| && lines[i..] == g + rest && OneField(g) && StartsField(rest)
    ensures n <= |lines| && lines[n..] == rest
    ensures Sources(lines, i, fields) == Entry(g, fields) + Sources(lines, n, fields)
  {
    GroupAt(lines, i, g, rest);
    SourcesStep(lines, i, g, n, fields);
  }

  lemma {:induction false} ReadStarts(updates: seq<Update>)
    requires GoodUpdates(updates)
    ensures StartsField(AllReadLines(updates))
    ensures updates != [] ==> OneField(ReadLines(updates[0]))
  {
    if updates != [] {
      ReadLinesShape(updates[0]);
    }
  }

  /** Reading the printed lines recovers field after field. */
  lemma {:induction false} SourcesRecovered(
    lines: seq<string>, i: nat, updates: seq<Update>, fields: map<string, string>)
    requires GoodUpdates(updates) && i <= |lines| && lines[i..] == AllReadLines(updates)
    ensures Sources(lines, i, fields) == Recovered(updates, fields)
    decreases |updates|
  {
    if updates != [] {
      var g := ReadLines(updates[0]);
      ReadStarts(updates);
      ReadStarts(updates[1..]);
      var n := i + |g|;
      FieldStep(lines, i, g, n, AllReadLines(updates[1..]), fields);
      EntryOf(updates[0], fields);
      SourcesRecovered(lines, n, updates[1..], fields);
    }
  }

  lemma {:induction false} RecoveredKeys(updates: seq<Update>, fields: map<string, string>)
    requires GoodUpdates(updates)
    ensures forall k :: k in Recovered(updates, fields) ==> exists i :: 0 <= i < |updates| && updates[i].key == k
  {
    if updates != [] {
      RecoveredKeys(updates[1..], fields);
      forall k | k in Recovered(updates, fields) ensures exists i :: 0 <= i < |updates| && updates[i].key == k {
        if k in Recovered(updates[1..], fields) {
          var i :| 0 <= i < |updates[1..]| && updates[1..][i].key == k;
          assert updates[i + 1].key == k;
        } else {
          assert updates[0].key == k;
        }
      }
    }
  }

  /** Every field is recovered under its own key. */
  lemma {:induction false} RecoveredAt(updates: seq<Update>, fields: map<string, string>, i: nat)
    requires GoodUpdates(updates) && i < |updates|
    ensures updates[i].key in Recovered(updates, fields)
    ensures Recovered(updates, fields)[updates[i].key] == FieldValue(updates[i], fields)
  {
    RecoveredKeys(updates[1..], fields);
    if i == 0 {
      forall j | 0 <= j < |updates[1..]| ensures updates[1..][j].key != updates[0].key {
        assert updates[1..][j] == updates[j + 1];
      }
    } else {
      assert updates[i] == updates[1..][i - 1];
      RecoveredAt(updates[1..], fields, i - 1);
    }
  }

  // ---- Multi-line values ----

  /** The printed lines of a value, joined again after the line segmentation. */
  function Reread(v: string): string {
    Join(StripAll(RustLines(v)))
  }

  /** What a multi-line value is read back as. */
  function ReadBack(value: string): string {
    TrimNewlines(Reread(value))
  }

  lemma {:induction false} BlockValue(u: Update, parsed: Option<string>)
    requires GoodKey(u.key) && '\n' in Shown(u)
    ensures SourceValue(ReadLines(u), parsed) == Some(ReadBack(Shown(u)))
  {
    var lines, g := RustLines(Shown(u)), ReadLines(u);
    ReadLinesShape(u);
    HeaderKey(u.key, "|");
    assert TrimStart(" |") == "|" by {
      assert " |"[1..] == "|";
    }
    BlockUnindented(u.key + ": |", lines);
    assert g == StripAll([u.key + ": |"] + Indented(lines));
  }

  /** The lines of a block lose their indentation and keep the rest. */
  lemma {:induction false} BlockUnindented(header: string, lines: seq<string>)
    ensures Unindented(StripAll([header] + Indented(lines))[1..]) == StripAll(lines)
  {
    var g := StripAll([header] + Indented(lines));
    forall i | 0 <= i < |lines| ensures Unindented(g[1..])[i] == StripCr(lines[i]) {
      assert g[1..][i] == StripCr("  " + lines[i]);
      IndentStripped(lines[i]);
    }
  }

  /** A field printed in a preferred block style is read back like any block, whatever its value. */
  lemma {:induction false} StyledValue(key: string, value: string, style: char, parsed: Option<string>)
    requires GoodKey(key) && style in {'|', '>'}
    ensures SourceValue(StripAll(StyledLines(key, value, Some(style))), parsed) == Some(ReadBack(value))
  {
    var printed, lines := StyledLines(key, value, Some(style)), BlockLines(value);
    var g := StripAll(printed);
    HeaderKey(key, [style]);
    HeaderKept(key, [style]);
    assert g[0] == key + ": " + [style];
    assert (" " + [style])[1..] == [style];
    assert TrimStart(" " + [style]) == [style];
    BlockUnindented(key + ": " + [style], lines);
    if value == "" {
      assert StripAll([""]) == [""];
      assert Join([""]) == "" && Join(StripAll(RustLines(""))) == "";
    }
  }

  lemma {:induction false} StripIndentOf(l: string)
    ensures StripIndent("  " + l) == l
  {
    var line := "  " + l;
    assert line[..2] == "  " && line[2..] == l;
  }

  lemma {:induction false} IndentStripped(l: string)
    ensures StripIndent(StripCr("  " + l)) == StripCr(l)
  {
    var line := "  " + l;
    StripIndentOf(l);
    StripCrCount(l);
    StripCrCount(line);
    if EndsInCr(l) {
      var m := l[..|l| - 1];
      assert l == m + "\r" && line == ("  " + m) + "\r";
      StripCrOf(m);
      StripCrOf("  " + m);
      StripIndentOf(m);
    } else {
      assert !EndsInCr(line);
    }
  }

  lemma {:induction false} StripCrOf(m: string)
    ensures StripCr(m + "\r") == m
  {
    var l := m + "\r";
    assert l[|l| - 1..] == "\r" && l[..|l| - 1] == m;
  }

  /** No line of the text ends in a carriage return. */
  predicate NoLineEndsInCr(s: string) {
    forall i :: 0 <= i < |s| && s[i] == '\r' ==> i + 1 < |s| && s[i + 1] != '\n'
  }

  function CountCr(s: string): nat {
    if s == [] then 0 else (if s[0] == '\r' then 1 else 0) + CountCr(s[1..])
  }

  lemma {:induction false} CountCrConcat(a: string, b: string)
    ensures CountCr(a + b) == CountCr(a) + CountCr(b)
  {
    if a == [] {
      assert a + b == b;
    } else {
      assert (a + b)[1..] == a[1..] + b;
      CountCrConcat(a[1..], b);
    }
  }

  predicate EndsInCr(l: string) {
    l != [] && l[|l| - 1] == '\r'
  }

  lemma {:induction false} StripCrCount(l: string)
    ensures CountCr(StripCr(l)) == CountCr(l) - if EndsInCr(l) then 1 else 0
    ensures !EndsInCr(l) ==> StripCr(l) == l
  {
    if EndsInCr(l) {
      assert l == l[..|l| - 1] + ['\r'];
      CountCrConcat(l[..|l| - 1], ['\r']);
    }
  }

  lemma {:induction false} TrimNewlinesCount(s: string)
    ensures CountCr(TrimNewlines(s)) == CountCr(s)
    ensures TrimNewlines(s + "\n") == TrimNewlines(s)
  {
    assert (s + "\n")[..|s|] == s;
    if s != [] && s[|s| - 1] == '\n' {
      assert s == s[..|s| - 1] + ['\n'];
      CountCrConcat(s[..|s| - 1], ['\n']);
      TrimNewlinesCount(s[..|s| - 1]);
    }
  }

  lemma {:induction false} CrAppend(l: string, rest: string)
    requires '\n' !in l
    ensures NoLineEndsInCr(l + ("\n" + rest)) ==> !EndsInCr(l) && NoLineEndsInCr(rest)
  {
    var v := l + ("\n" + rest);
    assert forall i :: 0 <= i < |rest| ==> rest[i] == v[|l| + 1 + i];
    assert EndsInCr(l) ==> v[|l| - 1] == '\r' && v[|l|] == '\n';
  }

  lemma {:induction false} CrAppendBack(l: string, rest: string)
    requires '\n' !in l && !EndsInCr(l) && NoLineEndsInCr(rest)
    ensures NoLineEndsInCr(l + ("\n" + rest))
  {
    var v := l + ("\n" + rest);
    forall i | 0 <= i < |v| && v[i] == '\r' ensures i + 1 < |v| && v[i + 1] != '\n' {
      if i < |l| {
        assert l[i] == '\r' && i + 1 < |l|;
        assert v[i + 1] == l[i + 1];
      } else {
        assert rest[i - |l| - 1] == '\r';
      }
    }
  }

  lemma {:induction false} NoCrIn(v: string)
    requires '\n' !in v
    ensures NoLineEndsInCr(v) <==> !EndsInCr(v)
  {
  }

  lemma {:induction false} Pieces(v: string, e: nat)
    requires e < |v| && v[e] == '\n'
    ensures v == v[..e] + ("\n" + v[e + 1..])
  {
  }

  lemma {:induction false} JoinCons(l: string, lines: seq<string>)
    ensures Join([l] + lines) == if lines == [] then l else l + ("\n" + Join(lines))
  {
    assert ([l] + lines)[1..] == lines;
  }

  /** `lines` after stripping, as one recursion over the text. */
  lemma {:induction false} StrippedLines(l: string, rest: string)
    requires '\n' !in l
    ensures StripAll(RustLines(l + ("\n" + rest))) == [StripCr(StripCr(l))] + StripAll(RustLines(rest))
  {
    var v := l + ("\n" + rest);
    FirstLine(l, rest);
    assert v == l + "\n" + rest;
    assert RustLines(v) == [StripCr(l)] + RustLines(rest);
    StripAllCons(StripCr(l), RustLines(rest));
  }

  lemma {:induction false} StripAllCons(l: string, lines: seq<string>)
    ensures StripAll([l] + lines) == [StripCr(l)] + StripAll(lines)
  {
  }

  lemma {:induction false} StrippedLast(v: string)
    requires '\n' !in v && v != ""
    ensures StripAll(RustLines(v)) == [StripCr(v)]
  {
    assert v[..|v|] == v;
    LineEndIs(v, |v|);
  }

  lemma {:induction false} LoseLast(a: string, b: string)
    ensures a + ("\n" + (b + "\n")) == (a + ("\n" + b)) + "\n"
  {
  }

  lemma {:induction false} RereadLine(l: string, rest: string)
    requires '\n' !in l
    ensures Reread(l + ("\n" + rest)) ==
            var m := StripCr(StripCr(l)); if rest == "" then m else m + ("\n" + Reread(rest))
  {
    StrippedLines(l, rest);
    RustLinesPlain(rest);
    JoinCons(StripCr(StripCr(l)), StripAll(RustLines(rest)));
  }

  /** The lines read back are the value, up to a final line feed, if no line ends in a carriage return. */
  lemma {:induction false} JoinKeeps(v: string)
    requires NoLineEndsInCr(v)
    ensures v == Reread(v) || v == Reread(v) + "\n"
    decreases |v|
  {
    var e := LineEnd(v);
    if e == |v| {
      assert v[..e] == v;
      KeepsLast(v);
    } else {
      var l, rest := v[..e], v[e + 1..];
      Pieces(v, e);
      CrAppend(l, rest);
      JoinKeeps(rest);
      KeepsLine(l, rest);
    }
  }

  lemma {:induction false} KeepsLast(v: string)
    requires NoLineEndsInCr(v) && '\n' !in v
    ensures v == Reread(v)
  {
    if v != "" {
      NoCrIn(v);
      StripCrCount(v);
      StrippedLast(v);
    }
  }

  lemma {:induction false} KeepsLine(l: string, rest: string)
    requires '\n' !in l && !EndsInCr(l) && (rest == Reread(rest) || rest == Reread(rest) + "\n")
    ensures var v := l + ("\n" + rest); v == Reread(v) || v == Reread(v) + "\n"
  {
    StripCrCount(l);
    RereadLine(l, rest);
    if rest == "" {
      assert l + ("\n" + rest) == l + "\n";
    } else {
      LoseLast(l, Reread(rest));
    }
  }

  lemma {:induction false} CountLine(l: string, rest: string)
    ensures CountCr(l + ("\n" + rest)) == CountCr(l) + CountCr(rest)
  {
    CountCrConcat(l, "\n" + rest);
    assert ("\n" + rest)[1..] == rest;
  }

  /** Reading back never gains a carriage return, and loses one if some line ends in one. */
  lemma {:induction false} JoinLoses(v: string)
    ensures CountCr(Reread(v)) <= CountCr(v)
    ensures !NoLineEndsInCr(v) ==> CountCr(Reread(v)) < CountCr(v)
    decreases |v|
  {
    var e := LineEnd(v);
    if e == |v| {
      assert v[..e] == v;
      LosesLast(v);
    } else {
      var l, rest := v[..e], v[e + 1..];
      Pieces(v, e);
      JoinLoses(rest);
      LosesLine(l, rest);
    }
  }

  lemma {:induction false} LosesLast(v: string)
    requires '\n' !in v
    ensures CountCr(Reread(v)) <= CountCr(v)
    ensures !NoLineEndsInCr(v) ==> CountCr(Reread(v)) < CountCr(v)
  {
    NoCrIn(v);
    if v != "" {
      StrippedLast(v);
      StripCrCount(v);
    }
  }

  lemma {:induction false} LosesLine(l: string, rest: string)
    requires '\n' !in l && CountCr(Reread(rest)) <= CountCr(rest)
    requires !NoLineEndsInCr(rest) ==> CountCr(Reread(rest)) < CountCr(rest)
    ensures var v := l + ("\n" + rest);
      && CountCr(Reread(v)) <= CountCr(v)
      && (!NoLineEndsInCr(v) ==> CountCr(Reread(v)) < CountCr(v))
  {
    RereadLine(l, rest);
    StripCrCount(l);
    StripCrCount(StripCr(l));
    CountLine(l, rest);
    CountLine(StripCr(StripCr(l)), Reread(rest));
    if !EndsInCr(l) && NoLineEndsInCr(rest) {
      CrAppendBack(l, rest);
    }
  }

  /** A value survives, up to trailing line feeds, if and only if none of its lines ends in a carriage return. */
  lemma {:induction false} ReadBackIff(v: string)
    ensures ReadBack(v) == TrimNewlines(v) <==> NoLineEndsInCr(v)
  {
    TrimNewlinesCount(v);
    TrimNewlinesCount(Reread(v));
    if NoLineEndsInCr(v) {
      JoinKeeps(v);
    } else {
      JoinLoses(v);
    }
  }

  // ---- Main theorem ----

  /** The printed fields, split off, segmented and read, give every field value under its key. */
  lemma {:induction false} PrintedSources(updates: seq<Update>, fields: map<string, string>)
    requires GoodUpdates(updates)
    ensures Sources(FrontLines(StripNewline(Unlines(DocumentLines(updates)))), 0, fields) == Recovered(updates, fields)
  {
    var lines := DocumentLines(updates);
    DocumentPlain(updates);
    DocumentReadLines(updates);
    assert forall k :: 0 <= k < |lines| ==> StripAll(lines)[k] == StripCr(lines[k]);
    PrintedLinesReadBack(lines);
    SourcesRecovered(AllReadLines(updates), 0, updates, fields);
  }

  lemma {:induction false} FieldValueIff(u: Update, fields: map<string, string>)
    requires GoodKey(u.key) && '\n' in Shown(u)
    ensures FieldValue(u, fields) == TrimNewlines(Shown(u)) <==> NoLineEndsInCr(Shown(u))
  {
    BlockValue(u, Lookup(fields, u.key));
    ReadBackIff(Shown(u));
  }

  /**
   Print a document, split it, segment it and extract the sources. Every field comes back under its
   key; a multi-line value comes back as it was, up to trailing line feeds, if and only if none of its
   lines ends in a carriage return.
   */
  lemma {:induction false} FieldSurvivesIff(updates: seq<Update>, body: string, fields: map<string, string>, i: nat)
    requires GoodUpdates(updates) && i < |updates|
    ensures var parts := SplitByLines(Rendered(updates, body));
      && parts.Some?
      && var sources := Sources(FrontLines(parts.value.frontmatter), 0, fields);
         var u := updates[i];
         && u.key in sources
         && ('\n' in Shown(u) ==>
               (sources[u.key] == TrimNewlines(Shown(u)) <==> NoLineEndsInCr(Shown(u))))
  {
    SplitReturnsBody(updates, body);
    PrintedSources(updates, fields);
    RecoveredAt(updates, fields, i);
    if '\n' in Shown(updates[i]) {
      FieldValueIff(updates[i], fields);
    }
  }

  /** The other side occurs: a value with a line feed after a carriage return comes back changed. */
  lemma {:induction false} CarriageReturnIsLost(body: string, fields: map<string, string>)
    ensures var u := Update("k", "a\r\nb", None);
      var parts := SplitByLines(Rendered([u], body));
      && parts.Some?
      && var sources := Sources(FrontLines(parts.value.frontmatter), 0, fields);
         "k" in sources && sources["k"] != TrimNewlines("a\r\nb")
  {
    var u := Update("k", "a\r\nb", None);
    var v := u.value;
    assert v[1] == '\r' && v[2] == '\n';
    assert '\n' in v && !NoLineEndsInCr(v);
    assert GoodUpdates([u]) && Shown(u) == v;
    FieldSurvivesIff([u], body, fields, 0);
  }

  // ---- Single lines ----

  /** What a double-quoted text denotes once its escapes are resolved, from position `i` on. */
  function Resolved(s: string): string
    decreases |s|
  {
    if s == [] then []
    else if s[0] == '\\' && |s| > 1 then [s[1]] + Resolved(s[2..])
    else [s[0]] + Resolved(s[1..])
  }

  /** What a YAML scalar of the two printed forms denotes. */
  function Denoted(scalar: string): string {
    if |scalar| >= 2 && scalar[0] == '"' && scalar[|scalar| - 1] == '"' then Resolved(scalar[1..|scalar| - 1]) else scalar
  }

  lemma {:induction false} EscapesResolve(v: string)
    ensures Resolved(Escaped(v)) == v
  {
    if v != [] {
      var rest := Escaped(v[1..]);
      EscapesResolve(v[1..]);
      if v[0] == '\\' || v[0] == '"' {
        assert Escaped(v) == ['\\', v[0]] + rest && Escaped(v)[2..] == rest;
      } else {
        assert Escaped(v)[1..] == rest;
      }
    }
  }

  /** Every printed scalar denotes its value, and needs quotes exactly if it is empty or has a special character. */
  lemma {:induction false} ScalarDenotes(v: string)
    ensures Denoted(YamlScalar(v)) == v
    ensures YamlScalar(v) == v <==>
      v != "" && forall c :: c in v ==> 'a' <= c <= 'z' || 'A' <= c <= 'Z' || '0' <= c <= '9' || c in {'-', '_', '.'}
  {
    assert forall i :: 0 <= i < |v| ==> v[i] in v;
    EscapesResolve(v);
    var quoted := "\"" + Escaped(v) + "\"";
    assert quoted[1..|quoted| - 1] == Escaped(v);
    EscapedGrows(v);
  }

  lemma {:induction false} EscapedGrows(v: string)
    ensures |Escaped(v)| >= |v| && (Escaped(v) == v <==> forall i :: 0 <= i < |v| ==> v[i] != '\\' && v[i] != '"')
  {
    if v != [] {
      EscapedGrows(v[1..]);
      assert v == [v[0]] + v[1..];
      assert (forall i :: 0 <= i < |v| ==> v[i] != '\\' && v[i] != '"') <==>
        v[0] != '\\' && v[0] != '"' && forall i :: 0 <= i < |v[1..]| ==> v[1..][i] != '\\' && v[1..][i] != '"' by {
        assert forall i :: 0 < i < |v| ==> v[i] == v[1..][i - 1];
      }
    }
  }

  /** What stands behind the key of a single line is read as it was printed. */
  lemma {:induction false} ScalarStarts(v: string)
    ensures var scalar := YamlScalar(v); scalar != "" && TrimStart(" " + scalar) == scalar && scalar[0] !in {'>', '|'}
    ensures Unquote(YamlScalar(v)) == if YamlScalar(v) == v then v else Escaped(v)
  {
    var scalar := YamlScalar(v);
    assert (" " + scalar)[1..] == scalar;
    var quoted := "\"" + Escaped(v) + "\"";
    assert quoted[1..|quoted| - 1] == Escaped(v);
    EscapedGrows(v);
  }

  /**
   A single-line value comes back as the parsed field says. If the field was not parsed, it comes back
   trimmed, and unchanged by that exactly if it has neither quotes nor backslashes.
   */
  lemma {:induction false} SingleLineSurvivesIff(updates: seq<Update>, body: string, fields: map<string, string>, i: nat)
    requires GoodUpdates(updates) && i < |updates| && '\n' !in Shown(updates[i])
    ensures var parts := SplitByLines(Rendered(updates, body));
      && parts.Some?
      && var sources := Sources(FrontLines(parts.value.frontmatter), 0, fields);
         var u := updates[i];
         && u.key in sources
         && (u.key in fields ==> sources[u.key] == fields[u.key])
         && (u.key !in fields ==>
               (sources[u.key] == Trim(Shown(u)) <==> forall c :: c in Trim(Shown(u)) ==> c != '\\' && c != '"'))
  {
    FieldRecovered(updates, body, fields, i);
    SingleLineValue(updates[i], fields);
    UnquotedIff(Trim(Shown(updates[i])));
  }

  lemma {:induction false} FieldRecovered(updates: seq<Update>, body: string, fields: map<string, string>, i: nat)
    requires GoodUpdates(updates) && i < |updates|
    ensures var parts := SplitByLines(Rendered(updates, body));
      && parts.Some?
      && var sources := Sources(FrontLines(parts.value.frontmatter), 0, fields);
         updates[i].key in sources && sources[updates[i].key] == FieldValue(updates[i], fields)
  {
    SplitReturnsBody(updates, body);
    PrintedSources(updates, fields);
    RecoveredAt(updates, fields, i);
  }

  lemma {:induction false} UnquotedIff(v: string)
    ensures Unquote(YamlScalar(v)) == v <==> forall c :: c in v ==> c != '\\' && c != '"'
  {
    ScalarStarts(v);
    EscapedGrows(v);
    ScalarDenotes(v);
    assert forall k :: 0 <= k < |v| ==> v[k] in v;
  }

  lemma {:induction false} SingleLineValue(u: Update, fields: map<string, string>)
    requires GoodKey(u.key) && '\n' !in Shown(u)
    ensures FieldValue(u, fields) == Lookup(fields, u.key).GetOr(Unquote(YamlScalar(Trim(Shown(u)))))
  {
    ReadLinesShape(u);
    HeaderKey(u.key, HeaderRest(u));
    ScalarStarts(Trim(Shown(u)));
  }

  // ---- Values that others wrote ----

  /** One level of indentation is taken off, two blanks or a tab; a line without one stays as it is. */
  lemma {:induction false} IndentForms(l: string)
    ensures StripIndent("  " + l) == l && StripIndent("\t" + l) == l
    ensures (l == "" || (l[0] != ' ' && l[0] != '\t')) ==> StripIndent(l) == l && StripIndent(" " + l) == " " + l
  {
    StripIndentOf(l);
    var tabbed, one := "\t" + l, " " + l;
    assert tabbed[..1] == "\t" && tabbed[1..] == l;
    assert |tabbed| >= 2 ==> tabbed[..2][0] == '\t';
    assert one[..1][0] == ' ' && (|one| >= 2 ==> one[..2][1] == l[0]);
    if l != "" {
      assert l[..1][0] == l[0] && (|l| >= 2 ==> l[..2][0] == l[0]);
    }
  }

  /** Quotes of either kind are taken off if they enclose the value. */
  lemma {:induction false} QuoteForms(v: string)
    ensures Unquote("\"" + v + "\"") == v && Unquote("'" + v + "'") == v
    ensures (v == "" || (v[0] != '"' && v[0] != '\'') || v[|v| - 1] != v[0] || |v| == 1) ==> Unquote(v) == v
  {
    var double, single := "\"" + v + "\"", "'" + v + "'";
    assert double[1..|double| - 1] == v && single[1..|single| - 1] == v;
  }
}
