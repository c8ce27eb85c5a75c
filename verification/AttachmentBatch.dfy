/**
 Writing a batch of uploaded attachments (src-tauri/src/commands_conversation.rs:2125-2204). The
 directory is a map from file name to contents, changed by one write per attachment.
 */
module AttachmentBatch {
  import opened Wrappers
  import opened AttachmentNames
  import Base64

  const MAX_COUNT := 10
  const MAX_PER_FILE := 25 * 1024 * 1024
  const MAX_TOTAL := 100 * 1024 * 1024

  datatype Input = Input(name: string, data: string)

  datatype Failure =
    | CountExceeded
    | Unreadable(name: string, reason: Option<Base64.DecodeError>)
    | UnsupportedType(name: string)
    | TooLarge(name: string)
    | TotalTooLarge

  /** Fixed parts of the environment: character lowering and the supported extensions. */
  datatype Rules = Rules(lower: char -> string, allowed: string -> bool)

  datatype Checked = Checked(base: string, bytes: seq<Byte>)

  function Extension(name: string, rules: Rules): string {
    Lower(Parts(name).ext.GetOr(""), rules.lower)
  }

  /** The checks of one file, in order. */
  function Check(file: Input, rules: Rules): (r: Result<Checked, Failure>)
    ensures r.Ok? ==> 0 < |r.value.bytes| <= MAX_PER_FILE && Sanitized(file.name) == Some(r.value.base)
  {
    var name := Sanitized(file.name);
    if name.None? then Err(Unreadable(file.name, None))
    else if !rules.allowed(Extension(name.value, rules)) then Err(UnsupportedType(file.name))
    else
      var bytes := Base64.Decoded(file.data);
      if bytes.Err? then Err(Unreadable(file.name, Some(bytes.error)))
      else if bytes.value == [] then Err(Unreadable(file.name, None))
      else if |bytes.value| > MAX_PER_FILE then Err(TooLarge(file.name))
      else Ok(Checked(name.value, bytes.value))
  }

  /** The checks of one file with the decoder's loop. */
  method CheckFile(file: Input, rules: Rules) returns (r: Result<Checked, Failure>)
    ensures r == Check(file, rules)
  {
    var name := Sanitized(file.name);
    if name.None? {
      return Err(Unreadable(file.name, None));
    }
    if !rules.allowed(Extension(name.value, rules)) {
      return Err(UnsupportedType(file.name));
    }
    var bytes := Base64.Decode(file.data);
    if bytes.Err? {
      return Err(Unreadable(file.name, Some(bytes.error)));
    }
    if bytes.value == [] {
      return Err(Unreadable(file.name, None));
    }
    if |bytes.value| > MAX_PER_FILE {
      return Err(TooLarge(file.name));
    }
    r := Ok(Checked(name.value, bytes.value));
  }

  type Verdict = Result<Checked, Failure>

  function Checks(files: seq<Input>, rules: Rules): (r: seq<Verdict>)
    ensures |r| == |files|
  {
    seq(|files|, i requires 0 <= i < |files| => Check(files[i], rules))
  }

  /** The first failure of files that follow `total` accepted bytes. */
  function FirstFailure(checks: seq<Verdict>, total: nat): Option<Failure> {
    if checks == [] then None
    else if checks[0].Err? then Some(checks[0].error)
    else if total + |checks[0].value.bytes| > MAX_TOTAL then Some(TotalTooLarge)
    else FirstFailure(checks[1..], total + |checks[0].value.bytes|)
  }

  /** The batch ends as the files still to come do, after `total` accepted bytes. */
  ghost predicate Pending(outcome: Option<Failure>, rest: seq<Verdict>, total: nat) {
    total <= MAX_TOTAL && outcome == FirstFailure(rest, total)
  }

  lemma {:induction false} PendingStep(
    outcome: Option<Failure>, rest: seq<Verdict>, total: nat, c: Verdict, rest': seq<Verdict>, total': nat)
    requires Pending(outcome, rest, total) && rest == [c] + rest'
    requires c.Ok? ==> total' == total + |c.value.bytes|
    ensures c.Err? ==> outcome == Some(c.error)
    ensures c.Ok? && total' > MAX_TOTAL ==> outcome == Some(TotalTooLarge)
    ensures c.Ok? && total' <= MAX_TOTAL ==> Pending(outcome, rest', total')
  {
    assert rest[1..] == rest';
  }

  function Outcome(checks: seq<Verdict>): Option<Failure> {
    if |checks| > MAX_COUNT then Some(CountExceeded) else FirstFailure(checks, 0)
  }

  function Contents(check: Verdict): seq<Byte> {
    if check.Ok? then check.value.bytes else []
  }

  function Size(checks: seq<Verdict>): nat {
    if checks == [] then 0 else |Contents(checks[0])| + Size(checks[1..])
  }

  predicate AllPass(checks: seq<Verdict>) {
    forall i :: 0 <= i < |checks| ==> checks[i].Ok?
  }

  lemma {:induction false} NoFailureIff(checks: seq<Verdict>, total: nat)
    requires total <= MAX_TOTAL
    ensures FirstFailure(checks, total).None? <==> AllPass(checks) && total + Size(checks) <= MAX_TOTAL
  {
    if checks != [] {
      assert AllPass(checks) <==> checks[0].Ok? && AllPass(checks[1..]) by {
        assert forall i :: 0 < i < |checks| ==> checks[i] == checks[1..][i - 1];
      }
      if checks[0].Ok? && total + |Contents(checks[0])| <= MAX_TOTAL {
        NoFailureIff(checks[1..], total + |Contents(checks[0])|);
      }
    }
  }

  /** A batch is accepted exactly if it is small enough, every file passes its checks, and the sizes add up. */
  lemma {:induction false} AcceptedIff(files: seq<Input>, rules: Rules)
    ensures var checks := Checks(files, rules);
      Outcome(checks).None? <==> |files| <= MAX_COUNT && AllPass(checks) && Size(checks) <= MAX_TOTAL
  {
    NoFailureIff(Checks(files, rules), 0);
  }

  // ---- Names of a batch ----

  function Lowered(names: seq<string>, lower: char -> string): set<string> {
    set i | 0 <= i < |names| :: Lower(names[i], lower)
  }

  /** Every name is the first candidate that is free after the names before it. */
  ghost predicate Assigned(names: seq<string>, bases: seq<string>, lower: char -> string) {
    && |names| == |bases|
    && forall i :: 0 <= i < |names| ==> AssignedAt(names, bases[i], i, lower)
  }

  ghost predicate AssignedAt(names: seq<string>, base: string, i: nat, lower: char -> string)
    requires i < |names|
  {
    exists k: nat :: FirstFree(names[i], base, k, Lowered(names[..i], lower), lower)
  }

  ghost predicate DistinctIgnoringCase(names: seq<string>, lower: char -> string) {
    forall i, j :: 0 <= i < j < |names| ==> Lower(names[i], lower) != Lower(names[j], lower)
  }

  lemma {:induction false} AssignedDistinct(names: seq<string>, bases: seq<string>, lower: char -> string)
    requires Assigned(names, bases, lower)
    ensures DistinctIgnoringCase(names, lower)
  {
    forall i, j | 0 <= i < j < |names| ensures Lower(names[i], lower) != Lower(names[j], lower) {
      assert AssignedAt(names, bases[j], j, lower);
      assert Lower(names[..j][i], lower) in Lowered(names[..j], lower);
    }
  }

  /** A batch keeps all its base names exactly if no two of them are equal ignoring case. */
  lemma {:induction false} BasesKeptIff(names: seq<string>, bases: seq<string>, lower: char -> string)
    requires Assigned(names, bases, lower)
    ensures names == bases <==> DistinctIgnoringCase(bases, lower)
  {
    AssignedDistinct(names, bases, lower);
    if DistinctIgnoringCase(bases, lower) {
      BasesKept(names, bases, |bases|, lower);
      assert names == names[..|bases|] && bases == bases[..|bases|];
    }
  }

  lemma {:induction false} BasesKept(names: seq<string>, bases: seq<string>, n: nat, lower: char -> string)
    requires Assigned(names, bases, lower) && DistinctIgnoringCase(bases, lower) && n <= |bases|
    ensures names[..n] == bases[..n]
  {
    if n > 0 {
      var last := n - 1;
      BasesKept(names, bases, last, lower);
      assert AssignedAt(names, bases[last], last, lower);
      assert forall i :: 0 <= i < last ==> Lower(bases[..last][i], lower) != Lower(bases[last], lower);
      assert Key(bases[last], 1, lower) !in Lowered(bases[..last], lower);
      var k: nat :| FirstFree(names[last], bases[last], k, Lowered(names[..last], lower), lower);
      assert names[..n] == names[..last] + [names[last]] && bases[..n] == bases[..last] + [bases[last]];
    }
  }

  // ---- The batch ----

  datatype Attachment = Attachment(name: string, size: nat)

  function Names(list: seq<Attachment>): (r: seq<string>)
    ensures |r| == |list|
  {
    seq(|list|, i requires 0 <= i < |list| => list[i].name)
  }

  function Bases(checks: seq<Verdict>): (r: seq<string>)
    ensures |r| == |checks|
  {
    seq(|checks|, i requires 0 <= i < |checks| => if checks[i].Ok? then checks[i].value.base else "")
  }

  /** The directory after the files were written one after the other. */
  function Disk(before: map<string, seq<Byte>>, names: seq<string>, checks: seq<Verdict>): map<string, seq<Byte>>
    requires |names| == |checks|
  {
    if names == [] then before
    else
      var last := |names| - 1;
      Disk(before, names[..last], checks[..last])[names[last] := Contents(checks[last])]
  }

  /** No write of a batch overwrites another one, even where names are compared ignoring case. */
  lemma {:induction false} NothingOverwritten(
    before: map<string, seq<Byte>>, names: seq<string>, checks: seq<Verdict>, lower: char -> string)
    requires |names| == |checks| && Assigned(names, Bases(checks), lower)
    ensures DistinctIgnoringCase(names, lower)
    ensures forall i :: 0 <= i < |names| ==>
      names[i] in Disk(before, names, checks) && Disk(before, names, checks)[names[i]] == Contents(checks[i])
    ensures SameElsewhere(Disk(before, names, checks), before, names)
  {
    AssignedDistinct(names, Bases(checks), lower);
    WritesKept(before, names, checks, lower);
  }

  ghost predicate SameElsewhere(now: map<string, seq<Byte>>, before: map<string, seq<Byte>>, names: seq<string>) {
    forall name :: name !in names ==>
      (name in now <==> name in before) && (name in now ==> now[name] == before[name])
  }

  lemma {:induction false} WritesKept(
    before: map<string, seq<Byte>>, names: seq<string>, checks: seq<Verdict>, lower: char -> string)
    requires |names| == |checks| && DistinctIgnoringCase(names, lower)
    ensures forall i :: 0 <= i < |names| ==>
      names[i] in Disk(before, names, checks) && Disk(before, names, checks)[names[i]] == Contents(checks[i])
    ensures SameElsewhere(Disk(before, names, checks), before, names)
  {
    if names != [] {
      var last := |names| - 1;
      WritesKept(before, names[..last], checks[..last], lower);
      LastWrite(before, Disk(before, names[..last], checks[..last]), names, checks, last, lower);
    }
  }

  lemma {:induction false} LastWrite(
    before: map<string, seq<Byte>>, disk: map<string, seq<Byte>>, names: seq<string>, checks: seq<Verdict>,
    last: nat, lower: char -> string)
    requires |names| == |checks| == last + 1 && DistinctIgnoringCase(names, lower)
    requires SameElsewhere(disk, before, names[..last])
    requires forall i :: 0 <= i < last ==> names[..last][i] in disk && disk[names[..last][i]] == Contents(checks[..last][i])
    ensures var now := disk[names[last] := Contents(checks[last])];
      && SameElsewhere(now, before, names)
      && forall i :: 0 <= i < |names| ==> names[i] in now && now[names[i]] == Contents(checks[i])
  {
    forall i | 0 <= i < last ensures names[i] != names[last] && names[i] in disk && disk[names[i]] == Contents(checks[i]) {
      assert names[..last][i] == names[i] && checks[..last][i] == checks[i];
      assert Lower(names[i], lower) != Lower(names[last], lower);
    }
    assert forall name :: name in names[..last] ==> name in names;
    assert names[last] in names;
  }

  lemma {:induction false} LoweredSnoc(names: seq<string>, name: string, lower: char -> string)
    ensures Lowered(names + [name], lower) == Lowered(names, lower) + {Lower(name, lower)}
  {
    var longer := names + [name];
    assert forall i :: 0 <= i < |names| ==> longer[i] == names[i];
    assert longer[|names|] == name;
  }

  lemma {:induction false} AssignedSnoc(
    names: seq<string>, bases: seq<string>, name: string, base: string, k: nat, lower: char -> string)
    requires Assigned(names, bases, lower) && FirstFree(name, base, k, Lowered(names, lower), lower)
    ensures Assigned(names + [name], bases + [base], lower)
  {
    var longer := names + [name];
    forall i | 0 <= i < |longer| ensures AssignedAt(longer, (bases + [base])[i], i, lower) {
      assert longer[..i] == if i < |names| then names[..i] else names;
      if i < |names| {
        assert AssignedAt(names, bases[i], i, lower);
        var j: nat :| FirstFree(names[i], bases[i], j, Lowered(names[..i], lower), lower);
        assert FirstFree(longer[i], bases[i], j, Lowered(longer[..i], lower), lower);
      } else {
        assert FirstFree(longer[i], base, k, Lowered(longer[..i], lower), lower);
      }
    }
  }

  /** What holds after the first files of a batch: names assigned, contents written. */
  ghost predicate Progress(
    files: map<string, seq<Byte>>, before: map<string, seq<Byte>>, list: seq<Attachment>, checks: seq<Verdict>,
    lower: char -> string)
  {
    && |list| == |checks| && AllPass(checks)
    && (forall i :: 0 <= i < |list| ==> list[i].size == |Contents(checks[i])|)
    && Assigned(Names(list), Bases(checks), lower)
    && files == Disk(before, Names(list), checks)
  }

  lemma {:induction false} ProgressSnoc(
    files: map<string, seq<Byte>>, before: map<string, seq<Byte>>, list: seq<Attachment>, checks: seq<Verdict>,
    name: string, c: Verdict, k: nat, lower: char -> string)
    requires Progress(files, before, list, checks, lower) && c.Ok?
    requires FirstFree(name, c.value.base, k, Lowered(Names(list), lower), lower)
    ensures var list' := list + [Attachment(name, |c.value.bytes|)];
      && Progress(files[name := c.value.bytes], before, list', checks + [c], lower)
      && Lowered(Names(list'), lower) == Lowered(Names(list), lower) + {Lower(name, lower)}
  {
    var names := Names(list);
    LoweredSnoc(names, name, lower);
    AssignedSnoc(names, Bases(checks), name, c.value.base, k, lower);
    assert Names(list + [Attachment(name, |c.value.bytes|)]) == names + [name];
    assert Bases(checks + [c]) == Bases(checks) + [c.value.base];
    assert (names + [name])[..|names|] == names && (checks + [c])[..|names|] == checks;
  }

  ghost predicate VerdictAt(batch: seq<Input>, rules: Rules, checks: seq<Verdict>, i: nat) {
    i < |batch| && i < |checks| && checks[i] == Check(batch[i], rules)
  }

  ghost predicate Verdicts(batch: seq<Input>, rules: Rules, checks: seq<Verdict>) {
    |checks| == |batch| && forall i: nat :: i < |batch| ==> VerdictAt(batch, rules, checks, i)
  }

  method CheckAt(batch: seq<Input>, i: nat, rules: Rules, ghost checks: seq<Verdict>) returns (c: Verdict)
    requires i < |batch| && Verdicts(batch, rules, checks)
    ensures c == checks[i]
  {
    c := CheckFile(batch[i], rules);
    assert VerdictAt(batch, rules, checks, i);
  }

  /** The running total, and its limit. */
  method Tally(verdict: Verdict, total: nat, ghost outcome: Option<Failure>, ghost rest: seq<Verdict>)
    returns (c: Verdict, total': nat)
    requires rest != [] && verdict == rest[0] && Pending(outcome, rest, total)
    ensures c.Err? ==> outcome == Some(c.error)
    ensures c.Ok? ==> c == rest[0] && Pending(outcome, rest[1..], total')
  {
    c, total' := verdict, total + |Contents(verdict)|;
    PendingStep(outcome, rest, total, verdict, rest[1..], total');
    if c.Ok? && total' > MAX_TOTAL {
      c := Err(TotalTooLarge);
    }
  }

  class Directory {
    var files: map<string, seq<Byte>>

    /** Name and write one accepted file. */
    method Store(
      c: Checked, used: set<string>, rules: Rules, list: seq<Attachment>, ghost past: seq<Verdict>,
      ghost before: map<string, seq<Byte>>)
      returns (list': seq<Attachment>, used': set<string>)
      requires Lowering(rules.lower) && used == Lowered(Names(list), rules.lower)
      requires Progress(files, before, list, past, rules.lower)
      modifies this
      ensures |list'| == |list| + 1 && used' == Lowered(Names(list'), rules.lower)
      ensures Progress(files, before, list', past + [Ok(c)], rules.lower)
    {
      var name, taken, k := UniqueName(c.base, used, rules.lower);
      ProgressSnoc(files, before, list, past, name, Ok(c), k, rules.lower);
      files := files[name := c.bytes];
      list' := list + [Attachment(name, |c.bytes|)];
      used' := taken;
    }

    /** The loop over the files of a batch. */
    method StoreAll(batch: seq<Input>, rules: Rules, ghost checks: seq<Verdict>)
      returns (r: Result<seq<Attachment>, Failure>, ghost written: seq<Attachment>)
      requires Lowering(rules.lower) && Verdicts(batch, rules, checks)
      modifies this
      ensures |written| <= |checks| && Progress(files, old(files), written, checks[..|written|], rules.lower)
      ensures r == match FirstFailure(checks, 0) case None => Ok(written) case Some(e) => Err(e)
      ensures r.Ok? ==> |written| == |checks|
    {
      var total: nat := 0;
      var used: set<string> := {};
      var list: seq<Attachment> := [];
      ghost var past, rest := [], checks;
      ghost var outcome := FirstFailure(checks, 0);
      for i := 0 to |batch|
        invariant |list| == i && past == checks[..i] && rest == checks[i..]
        invariant Pending(outcome, rest, total)
        invariant used == Lowered(Names(list), rules.lower)
        invariant Progress(files, old(files), list, past, rules.lower)
      {
        var verdict := CheckAt(batch, i, rules, checks);
        var c, total' := Tally(verdict, total, outcome, rest);
        if c.Err? {
          return Err(c.error), list;
        }
        list, used := Store(c.value, used, rules, list, past, old(files));
        past, rest, total := past + [c], rest[1..], total';
      }
      return Ok(list), list;
    }

    /**
     `materialize_attachment_files_to_dir`. On success all files are written; on failure those before
     the failing one are, and the error is the batch's first failure.
     */
    method Materialize(batch: seq<Input>, rules: Rules)
      returns (r: Result<seq<Attachment>, Failure>, ghost written: seq<Attachment>)
      requires Lowering(rules.lower)
      modifies this
      ensures |written| <= |batch|
      ensures Progress(files, old(files), written, Checks(batch, rules)[..|written|], rules.lower)
      ensures r == match Outcome(Checks(batch, rules)) case None => Ok(written) case Some(e) => Err(e)
      ensures r.Ok? ==> |written| == |batch|
    {
      if |batch| > MAX_COUNT {
        return Err(CountExceeded), [];
      }
      r, written := StoreAll(batch, rules, Checks(batch, rules));
    }
  }
}
