/**
 Front matter documents (src/frontmatter.rs): the delimiter scan, the printer, and the extraction of
 the source text of each field.
 */
module Frontmatter {
  import opened Wrappers
  import opened Collections
  import opened Text

  // ---- Lines ----

  /** Position of the first line feed, or the length of the text. */
  function LineEnd(s: string): (e: nat)
    ensures e <= |s| && '\n' !in s[..e] && (e < |s| ==> s[e] == '\n')
  {
    if s == [] || s[0] == '\n' then 0
    else
      var e := LineEnd(s[1..]);
      assert s[..e + 1] == [s[0]] + s[1..][..e];
      e + 1
  }

  function StripSuffix(s: string, suffix: string): Option<string> {
    if |suffix| <= |s| && s[|s| - |suffix|..] == suffix then Some(s[..|s| - |suffix|]) else None
  }

  function StripPrefix(s: string, prefix: string): Option<string> {
    if |prefix| <= |s| && s[..|prefix|] == prefix then Some(s[|prefix|..]) else None
  }

  /** One trailing carriage return removed. */
  function StripCr(line: string): string {
    StripSuffix(line, "\r").GetOr(line)
  }

  // ---- Splitting ----

  datatype Parts = Parts(frontmatter: string, body: string)

  /** A line is a delimiter if it is `---`, where a carriage return before a line feed is not part of it. */
  predicate IsDelimiter(line: string, terminated: bool) {
    line == "---" || (terminated && line == "---\r")
  }

  /** Line-wise specification: where the first delimiter line starts. */
  function FirstDelimiter(s: string): (r: Option<nat>)
    ensures r.Some? ==> r.value + 3 <= |s|
    decreases |s|
  {
    var e := LineEnd(s);
    if IsDelimiter(s[..e], e < |s|) then Some(0)
    else if e == |s| then None
    else
      match FirstDelimiter(s[e + 1..])
      case None => None
      case Some(p) => Some(e + 1 + p)
  }

  function StripNewline(s: string): string {
    StripSuffix(s, "\r\n").GetOr(StripSuffix(s, "\n").GetOr(s))
  }

  function SkipNewline(s: string): string {
    StripPrefix(s, "\r\n").GetOr(StripPrefix(s, "\n").GetOr(s))
  }

  function Opened(content: string): Option<string> {
    var crlf := StripPrefix(content, "---\r\n");
    if crlf.Some? then crlf else StripPrefix(content, "---\n")
  }

  predicate DashesAt(s: string, p: nat) {
    p + 3 <= |s| && s[p] == '-' && s[p + 1] == '-' && s[p + 2] == '-'
  }

  /** Where the front matter ends and the body starts, by lines. */
  function SplitByLines(content: string): (r: Option<Parts>) {
    var rest := Opened(content);
    if rest.None? then None
    else
      var p := FirstDelimiter(rest.value);
      if p.None? then None
      else Some(Parts(StripNewline(rest.value[..p.value]), SkipNewline(rest.value[p.value + 3..])))
  }

  predicate StartsLine(s: string, p: nat) {
    p <= |s| && (p == 0 || s[p - 1] == '\n')
  }

  predicate EndsLine(s: string, p: nat) {
    p == |s| || (p < |s| && (s[p] == '\n' || (p + 1 < |s| && s[p] == '\r' && s[p + 1] == '\n')))
  }

  /** What the scan accepts at a position. */
  predicate AcceptedAt(s: string, p: nat) {
    DashesAt(s, p) && StartsLine(s, p) && EndsLine(s, p + 3)
  }

  /** `str::find("---")` from a position. */
  function FindDashes(s: string, from: nat): (r: Option<nat>)
    requires from <= |s|
    ensures r.Some? ==> from <= r.value && DashesAt(s, r.value) && forall p :: from <= p < r.value ==> !DashesAt(s, p)
    ensures r.None? ==> forall p :: from <= p ==> !DashesAt(s, p)
    decreases |s| - from
  {
    if DashesAt(s, from) then Some(from)
    else if from == |s| then None
    else FindDashes(s, from + 1)
  }

  ghost predicate NoneBefore(s: string, n: nat) {
    forall p: nat :: p < n ==> !AcceptedAt(s, p)
  }

  /** The loop of `split_frontmatter`: it jumps three characters past every rejected candidate. */
  method ScanForDelimiter(rest: string) returns (r: Option<nat>)
    ensures r == FirstDelimiter(rest)
  {
    var start := 0;
    while true
      invariant 0 <= start <= |rest|
      invariant NoneBefore(rest, start)
      decreases |rest| - start
    {
      r := FindDashes(rest, start);
      if r.None? {
        NothingFound(rest, start);
        return;
      }
      var p := r.value;
      if StartsLine(rest, p) && EndsLine(rest, p + 3) {
        FoundFirst(rest, start, p);
        return;
      }
      RejectedSkips(rest, start, p);
      start := p + 3;
    }
  }

  lemma {:induction false} NothingFound(s: string, start: nat)
    requires start <= |s| && NoneBefore(s, start) && FindDashes(s, start).None?
    ensures FirstDelimiter(s).None?
  {
    ScanIsLinewise(s);
  }

  lemma {:induction false} FoundFirst(s: string, start: nat, p: nat)
    requires start <= |s| && NoneBefore(s, start) && FindDashes(s, start) == Some(p)
    requires StartsLine(s, p) && EndsLine(s, p + 3)
    ensures FirstDelimiter(s) == Some(p)
  {
    ScanIsLinewise(s);
    assert AcceptedAt(s, p);
  }

  /** A rejected candidate also rules out the next two positions. */
  lemma {:induction false} RejectedSkips(s: string, start: nat, p: nat)
    requires start <= |s| && NoneBefore(s, start) && FindDashes(s, start) == Some(p)
    requires !(StartsLine(s, p) && EndsLine(s, p + 3))
    ensures NoneBefore(s, p + 3)
  {
    InsideDashes(s, p);
  }

  lemma {:induction false} InsideDashes(s: string, p: nat)
    requires DashesAt(s, p)
    ensures !AcceptedAt(s, p + 1) && !AcceptedAt(s, p + 2)
  {
  }

  /** `split_frontmatter`. */
  method Split(content: string) returns (r: Option<Parts>)
    ensures r == SplitByLines(content)
  {
    var text := Opened(content);
    if text.None? {
      return None;
    }
    var rest := text.value;
    var p := ScanForDelimiter(rest);
    if p.None? {
      return None;
    }
    r := Some(Parts(StripNewline(rest[..p.value]), SkipNewline(rest[p.value + 3..])));
  }

  lemma {:induction false} AcceptedLater(s: string, e: nat, p: nat)
    requires e < |s| && s[e] == '\n'
    ensures AcceptedAt(s, e + 1 + p) <==> AcceptedAt(s[e + 1..], p)
  {
  }

  lemma {:induction false} LineEndIs(s: string, k: nat)
    requires k <= |s| && '\n' !in s[..k] && (k < |s| ==> s[k] == '\n')
    ensures LineEnd(s) == k
  {
    if k > 0 {
      assert s[..k] == [s[0]] + s[1..][..k - 1];
      LineEndIs(s[1..], k - 1);
    }
  }

  /** Where the first line of a text ends. */
  lemma {:induction false} FirstLine(l: string, rest: string)
    requires '\n' !in l
    ensures var text := l + "\n" + rest;
      && LineEnd(text) == |l| && |l| < |text| && text[..|l|] == l && text[|l| + 1..] == rest
  {
    var text := l + "\n" + rest;
    assert text == l + ("\n" + rest);
    LineEndIs(text, |l|);
  }

  lemma {:induction false} AcceptedFirst(s: string)
    ensures var e := LineEnd(s); AcceptedAt(s, 0) <==> IsDelimiter(s[..e], e < |s|)
  {
    if AcceptedAt(s, 0) {
      assert s[..3] == "---";
      if |s| == 3 || s[3] == '\n' {
        LineEndIs(s, 3);
      } else {
        assert s[..4] == "---\r";
        LineEndIs(s, 4);
      }
    }
    var e := LineEnd(s);
    if IsDelimiter(s[..e], e < |s|) {
      assert s[0] == s[..e][0] && s[1] == s[..e][1] && s[2] == s[..e][2];
      assert e == 4 ==> s[3] == s[..e][3];
    }
  }

  lemma {:induction false} NotAcceptedInside(s: string, q: nat)
    requires 0 < q <= LineEnd(s)
    ensures !AcceptedAt(s, q)
  {
    assert s[q - 1] == s[..LineEnd(s)][q - 1];
  }

  ghost predicate LeastAccepted(s: string, r: Option<nat>) {
    match r
    case None => forall p: nat :: !AcceptedAt(s, p)
    case Some(p) => AcceptedAt(s, p) && forall q: nat :: q < p ==> !AcceptedAt(s, q)
  }

  /** The line-wise specification finds the least position that the scan accepts. */
  lemma {:induction false} ScanIsLinewise(s: string)
    ensures LeastAccepted(s, FirstDelimiter(s))
    decreases |s|
  {
    var e := LineEnd(s);
    AcceptedFirst(s);
    if !IsDelimiter(s[..e], e < |s|) {
      forall q: nat | q <= e ensures !AcceptedAt(s, q) {
        if q > 0 {
          NotAcceptedInside(s, q);
        }
      }
      if e < |s| {
        ScanIsLinewise(s[e + 1..]);
        LeastShifts(s, e, FirstDelimiter(s[e + 1..]));
      }
    }
  }

  lemma {:induction false} LeastShifts(s: string, e: nat, r: Option<nat>)
    requires e < |s| && s[e] == '\n' && forall q: nat :: q <= e ==> !AcceptedAt(s, q)
    requires LeastAccepted(s[e + 1..], r)
    ensures LeastAccepted(s, if r.None? then None else Some(e + 1 + r.value))
  {
    forall q: nat | q > e ensures AcceptedAt(s, q) <==> AcceptedAt(s[e + 1..], q - e - 1) {
      AcceptedLater(s, e, q - e - 1);
    }
  }

  // ---- Printing ----

  /** `str::lines`. */
  function RustLines(s: string): seq<string>
    decreases |s|
  {
    if s == "" then []
    else
      var e := LineEnd(s);
      if e == |s| then [s] else [StripCr(s[..e])] + RustLines(s[e + 1..])
  }

  predicate PlainChar(c: char) {
    'a' <= c <= 'z' || 'A' <= c <= 'Z' || '0' <= c <= '9' || c == '-' || c == '_' || c == '.'
  }

  function Escaped(s: string): string {
    if s == [] then []
    else (if s[0] == '\\' || s[0] == '"' then ['\\', s[0]] else [s[0]]) + Escaped(s[1..])
  }

  function YamlScalar(v: string): string {
    if v == "" then "\"\""
    else if forall i :: 0 <= i < |v| ==> PlainChar(v[i]) then v
    else "\"" + Escaped(v) + "\""
  }

  function Unlines(lines: seq<string>): string {
    if lines == [] then "" else lines[0] + "\n" + Unlines(lines[1..])
  }

  function Indented(lines: seq<string>): seq<string> {
    seq(|lines|, i requires 0 <= i < |lines| => "  " + lines[i])
  }

  /** The lines that a field is printed as. */
  function FieldLines(key: string, value: string): seq<string> {
    if '\n' in value then [key + ": |"] + Indented(RustLines(value))
    else [key + ": " + YamlScalar(Trim(value))]
  }

  datatype Update = Update(key: string, value: string, source: Option<string>)

  function Shown(u: Update): string {
    u.source.GetOr(u.value)
  }

  function DocumentLines(updates: seq<Update>): seq<string> {
    if updates == [] then [] else FieldLines(updates[0].key, Shown(updates[0])) + DocumentLines(updates[1..])
  }

  /** The style a field is printed in: the preferred one, or a literal block if the value has a line feed. */
  function Style(value: string, preferred: Option<char>): Option<char> {
    if preferred.Some? then preferred else if '\n' in value then Some('|') else None
  }

  /** The lines of a block: an empty value still has one. */
  function BlockLines(value: string): seq<string> {
    if value == "" then [""] else RustLines(value)
  }

  /** The lines that a field is printed as when a block style may be preferred. */
  function StyledLines(key: string, value: string, preferred: Option<char>): seq<string> {
    var style := Style(value, preferred);
    if style.Some? then [key + ": " + [style.value]] + Indented(BlockLines(value))
    else [key + ": " + YamlScalar(Trim(value))]
  }

  /** Without a preferred style a field is printed as `FieldLines` says. */
  lemma {:induction false} PlainStyle(key: string, value: string)
    ensures StyledLines(key, value, None) == FieldLines(key, value)
  {
    assert key + ": " + ['|'] == key + ": |";
  }

  function Ended(lines: seq<string>, ending: string): string {
    if lines == [] then "" else lines[0] + ending + Ended(lines[1..], ending)
  }

  lemma {:induction false} EndedByLf(lines: seq<string>)
    ensures Ended(lines, "\n") == Unlines(lines)
  {
    if lines != [] {
      EndedByLf(lines[1..]);
    }
  }

  /** `output` and the lines still to come make up `total`. */
  ghost predicate Printing(output: string, lines: seq<string>, ending: string, total: string) {
    output + Ended(lines, ending) == total
  }

  lemma {:induction false} PrintStep(output: string, line: string, rest: seq<string>, ending: string, total: string)
    requires Printing(output, [line] + rest, ending, total)
    ensures Printing(output + line + ending, rest, ending, total)
  {
    assert ([line] + rest)[1..] == rest;
    Regrouped(output, line, ending, Ended(rest, ending));
  }

  lemma {:induction false} Regrouped(a: string, b: string, c: string, d: string)
    ensures a + (b + c + d) == (a + b + c) + d
  {
  }

  lemma {:induction false} PrintEnd(output: string, ending: string, total: string)
    requires Printing(output, [], ending, total)
    ensures output == total
  {
    assert output + "" == output;
  }

  /** `render_field`. */
  method RenderField(key: string, value: string, preferred: Option<char>, ending: string) returns (output: string)
    ensures output == Ended(StyledLines(key, value, preferred), ending)
  {
    var style := Style(value, preferred);
    ghost var total := Ended(StyledLines(key, value, preferred), ending);
    if style.None? {
      output := key + ": " + YamlScalar(Trim(value)) + ending;
      assert Ended(StyledLines(key, value, preferred)[1..], ending) == "";
      assert output + "" == output;
      return;
    }
    var head := key + ": " + [style.value];
    var lines := BlockLines(value);
    ghost var rest := Indented(lines);
    StartPrinting(head, rest, ending);
    output := head + ending;
    for i := 0 to |lines|
      invariant rest == Indented(lines)[i..]
      invariant Printing(output, rest, ending, total)
    {
      assert rest == ["  " + lines[i]] + rest[1..];
      PrintStep(output, "  " + lines[i], rest[1..], ending, total);
      output := output + ("  " + lines[i]) + ending;
      rest := rest[1..];
    }
    PrintEnd(output, ending, total);
  }

  lemma {:induction false} StartPrinting(head: string, rest: seq<string>, ending: string)
    ensures Printing(head + ending, rest, ending, Ended([head] + rest, ending))
  {
    assert ([head] + rest)[1..] == rest;
  }

  /** `output` and the fields still to come make up `total`. */
  ghost predicate Rendering(output: string, rest: seq<Update>, total: string) {
    output + Unlines(DocumentLines(rest)) == total
  }

  lemma {:induction false} RenderStep(output: string, rest: seq<Update>, field: string, total: string)
    requires rest != [] && Rendering(output, rest, total)
    requires field == Ended(StyledLines(rest[0].key, Shown(rest[0]), None), "\n")
    ensures Rendering(output + field, rest[1..], total)
  {
    PlainStyle(rest[0].key, Shown(rest[0]));
    EndedByLf(FieldLines(rest[0].key, Shown(rest[0])));
    PrintedFirst(rest);
    Associative(output, field, Unlines(DocumentLines(rest[1..])));
  }

  lemma {:induction false} RenderEnd(output: string, total: string)
    requires Rendering(output, [], total)
    ensures output == total
  {
    assert output + "" == output;
  }

  /** `render_frontmatter_document`. */
  method RenderDocument(updates: seq<Update>, body: string) returns (output: string)
    ensures output == Rendered(updates, body)
  {
    output := "---\n";
    ghost var total, rest := "---\n" + Unlines(DocumentLines(updates)), updates;
    for i := 0 to |updates|
      invariant rest == updates[i..]
      invariant Rendering(output, rest, total)
    {
      var field := RenderField(updates[i].key, Shown(updates[i]), None, "\n");
      RenderStep(output, rest, field, total);
      output := output + field;
      rest := rest[1..];
    }
    RenderEnd(output, total);
    output := output + "---\n" + body;
  }

  lemma {:induction false} PrintedFirst(updates: seq<Update>)
    requires updates != []
    ensures Unlines(DocumentLines(updates)) ==
            Unlines(FieldLines(updates[0].key, Shown(updates[0]))) + Unlines(DocumentLines(updates[1..]))
  {
    UnlinesConcat(FieldLines(updates[0].key, Shown(updates[0])), DocumentLines(updates[1..]));
  }

  function Rendered(updates: seq<Update>, body: string): string {
    "---\n" + Unlines(DocumentLines(updates)) + "---\n" + body
  }

  lemma {:induction false} UnlinesConcat(a: seq<string>, b: seq<string>)
    ensures Unlines(a + b) == Unlines(a) + Unlines(b)
  {
    if a == [] {
      assert a + b == b;
    } else {
      assert (a + b)[1..] == a[1..] + b;
      UnlinesConcat(a[1..], b);
    }
  }

  // ---- Reading field sources back ----

  function SplitLines(s: string): seq<string>
    decreases |s|
  {
    var e := LineEnd(s);
    if e == |s| then [s] else [s[..e]] + SplitLines(s[e + 1..])
  }

  /** `s.replace("\r\n", "\n")`. */
  function DropCr(s: string): string {
    if s == [] then []
    else if |s| >= 2 && s[0] == '\r' && s[1] == '\n' then ['\n'] + DropCr(s[2..])
    else [s[0]] + DropCr(s[1..])
  }

  function NonEmpty(lines: seq<string>): seq<string> {
    if lines == [] then [] else (if lines[0] == "" then [] else [lines[0]]) + NonEmpty(lines[1..])
  }

  /** `frontmatter_lines`. */
  function FrontLines(s: string): seq<string> {
    NonEmpty(SplitLines(DropCr(s)))
  }

  /** Position of the first colon. */
  function Colon(s: string): (r: Option<nat>)
    ensures r.Some? ==> r.value < |s| && s[r.value] == ':' && ':' !in s[..r.value]
    ensures r.None? ==> ':' !in s
  {
    if s == [] then None
    else if s[0] == ':' then Some(0)
    else
      match Colon(s[1..])
      case None => None
      case Some(p) =>
        assert s[..p + 1] == [s[0]] + s[1..][..p];
        Some(p + 1)
  }

  function TopLevelKey(line: string): Option<string> {
    if line != [] && IsWhitespace(line[0]) then None
    else if Colon(line).None? then None
    else
      var key := Trim(line[..Colon(line).value]);
      if key == "" then None else Some(key)
  }

  function NextField(lines: seq<string>, start: nat): (n: nat)
    requires start <= |lines|
    ensures start <= n <= |lines|
    ensures forall i :: start <= i < n ==> TopLevelKey(lines[i]).None?
    ensures n < |lines| ==> TopLevelKey(lines[n]).Some?
    decreases |lines| - start
  {
    if start == |lines| || TopLevelKey(lines[start]).Some? then start else NextField(lines, start + 1)
  }

  function StripIndent(line: string): string {
    StripPrefix(line, "  ").GetOr(StripPrefix(line, "\t").GetOr(line))
  }

  function Join(lines: seq<string>): string {
    if lines == [] then "" else if |lines| == 1 then lines[0] else lines[0] + "\n" + Join(lines[1..])
  }

  function TrimNewlines(s: string): string {
    if s != [] && s[|s| - 1] == '\n' then TrimNewlines(s[..|s| - 1]) else s
  }

  function Enclosed(v: string, quote: char): Option<string> {
    if |v| >= 2 && v[0] == quote && v[|v| - 1] == quote then Some(v[1..|v| - 1]) else None
  }

  function Unquote(v: string): string {
    Enclosed(v, '"').GetOr(Enclosed(v, '\'').GetOr(v))
  }

  function Unindented(lines: seq<string>): seq<string> {
    seq(|lines|, i requires 0 <= i < |lines| => StripIndent(lines[i]))
  }

  function SourceValue(lines: seq<string>, parsed: Option<string>): Option<string> {
    if lines == [] || Colon(lines[0]).None? then None
    else
      var text := TrimStart(lines[0][Colon(lines[0]).value + 1..]);
      if text != [] && (text[0] == '>' || text[0] == '|') then Some(TrimNewlines(Join(Unindented(lines[1..]))))
      else Some(parsed.GetOr(Unquote(text)))
  }

  function Lookup(fields: map<string, string>, key: string): Option<string> {
    if key in fields then Some(fields[key]) else None
  }

  /** What the lines of one field contribute. */
  function Entry(lines: seq<string>, fields: map<string, string>): map<string, string> {
    if lines == [] || TopLevelKey(lines[0]).None? then map[]
    else
      var key := TopLevelKey(lines[0]).value;
      var value := SourceValue(lines, Lookup(fields, key));
      if value.Some? then map[key := value.value] else map[]
  }

  /** Field by field from line `i` on; a later field with the same key wins. */
  function Sources(lines: seq<string>, i: nat, fields: map<string, string>): map<string, string>
    requires i <= |lines|
    decreases |lines| - i
  {
    if i == |lines| then map[]
    else if TopLevelKey(lines[i]).None? then Sources(lines, i + 1, fields)
    else
      var next := NextField(lines, i + 1);
      Entry(lines[i..next], fields) + Sources(lines, next, fields)
  }

  /** `parse_frontmatter_field_sources`. */
  method ParseSources(frontmatter: string, fields: map<string, string>) returns (sources: map<string, string>)
    ensures sources == Sources(FrontLines(frontmatter), 0, fields)
  {
    var lines := FrontLines(frontmatter);
    sources := map[];
    var index := 0;
    while index < |lines|
      invariant 0 <= index <= |lines|
      invariant sources + Sources(lines, index, fields) == Sources(lines, 0, fields)
    {
      var key := TopLevelKey(lines[index]);
      if key.None? {
        index := index + 1;
      } else {
        var next := NextField(lines, index + 1);
        PlusAssociative(sources, Entry(lines[index..next], fields), Sources(lines, next, fields));
        sources := InsertField(sources, key.value, lines[index..next], fields);
        index := next;
      }
    }
  }

  method InsertField(sources: map<string, string>, key: string, lines: seq<string>, fields: map<string, string>)
    returns (sources': map<string, string>)
    requires lines != [] && TopLevelKey(lines[0]) == Some(key)
    ensures sources' == sources + Entry(lines, fields)
  {
    sources' := sources;
    var value := SourceValue(lines, Lookup(fields, key));
    if value.Some? {
      sources' := sources'[key := value.value];
    }
  }
}
