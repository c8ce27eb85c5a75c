/**
 The prompt usage journal (src/personal_analytics.rs:1397-1459): lines are folded per turn, and each turn
 contributes at most one usage and one fact.
 */
module PromptJournal {
  import opened Wrappers
  import opened Collections
  import opened Ordered

  /** Seconds since 1970. */
  datatype Epoch = Epoch(seconds: int)

  /** A line of the journal; `U` is what a completed prompt consumed. Times are absent if unreadable. */
  datatype Line<U> =
    | Blank
    | Unrecognized
    | Baseline
    | Started(turn: string, epoch: Option<Epoch>)
    | Completed(turn: string, epoch: Option<Epoch>, usage: U)

  datatype TurnState<U> = TurnState(started: Option<Epoch>, completed: Option<Epoch>, usage: Option<U>)

  datatype TurnFact = TurnFact(completed: bool, activityEpoch: Epoch)

  datatype Facts<U> = Facts(recognized: nat, usages: seq<U>, turns: seq<TurnFact>)

  // ---- What each turn amounts to ----

  predicate Of<U>(line: Line<U>, turn: string) {
    (line.Started? || line.Completed?) && line.turn == turn
  }

  function Mentioned<U>(lines: seq<Line<U>>): set<string> {
    set i | 0 <= i < |lines| && (lines[i].Started? || lines[i].Completed?) :: lines[i].turn
  }

  function StartEpochs<U>(lines: seq<Line<U>>, turn: string): set<Epoch> {
    set i | 0 <= i < |lines| && lines[i].Started? && lines[i].turn == turn && lines[i].epoch.Some? :: lines[i].epoch.value
  }

  function CompletionEpochs<U>(lines: seq<Line<U>>, turn: string): set<Epoch> {
    set i | 0 <= i < |lines| && lines[i].Completed? && lines[i].turn == turn && lines[i].epoch.Some? :: lines[i].epoch.value
  }

  /** The usage of the last completion of the turn. */
  function LastUsage<U>(lines: seq<Line<U>>, turn: string): Option<U> {
    if lines == [] then None
    else
      var last := lines[|lines| - 1];
      if last.Completed? && last.turn == turn then Some(last.usage) else LastUsage(lines[..|lines| - 1], turn)
  }

  ghost predicate IsMax(x: Epoch, s: set<Epoch>) {
    x in s && forall y :: y in s ==> y.seconds <= x.seconds
  }

  lemma {:induction false} MaxExists(s: set<Epoch>)
    requires s != {}
    ensures exists x :: IsMax(x, s)
  {
    var x :| x in s;
    var rest := s - {x};
    if rest == {} {
      assert s == {x};
      assert IsMax(x, s);
    } else {
      MaxExists(rest);
      var m :| IsMax(m, rest);
      assert IsMax(if x.seconds < m.seconds then m else x, s);
    }
  }

  ghost function MaxOf(s: set<Epoch>): (r: Option<Epoch>)
    ensures r.Some? <==> s != {}
    ensures r.Some? ==> IsMax(r.value, s)
  {
    if s == {} then None
    else
      MaxExists(s);
      var x :| IsMax(x, s);
      Some(x)
  }

  lemma {:induction false} MaxIs(x: Epoch, s: set<Epoch>)
    requires IsMax(x, s)
    ensures MaxOf(s) == Some(x)
  {
    assert MaxOf(s).value.seconds == x.seconds;
  }

  ghost function StateOf<U>(lines: seq<Line<U>>, turn: string): TurnState<U> {
    TurnState(MaxOf(StartEpochs(lines, turn)), MaxOf(CompletionEpochs(lines, turn)), LastUsage(lines, turn))
  }

  function Recognized<U>(lines: seq<Line<U>>): nat {
    if lines == [] then 0
    else
      Recognized(lines[..|lines| - 1])
      + if lines[|lines| - 1].Blank? || lines[|lines| - 1].Unrecognized? then 0 else 1
  }

  function UsageOf<U>(s: TurnState<U>): seq<U> {
    if s.usage.Some? then [s.usage.value] else []
  }

  /** The fact of a turn, dated by its completion or else by its start; undated turns have none. */
  function FactOf<U>(s: TurnState<U>): seq<TurnFact> {
    var epoch := if s.completed.Some? then s.completed else s.started;
    if epoch.Some? then [TurnFact(s.usage.Some?, epoch.value)] else []
  }

  ghost function Usages<U>(turns: seq<string>, lines: seq<Line<U>>): seq<U> {
    if turns == [] then [] else UsageOf(StateOf(lines, turns[0])) + Usages(turns[1..], lines)
  }

  ghost function TurnFacts<U>(turns: seq<string>, lines: seq<Line<U>>): seq<TurnFact> {
    if turns == [] then [] else FactOf(StateOf(lines, turns[0])) + TurnFacts(turns[1..], lines)
  }

  ghost function FactsOf<U>(lines: seq<Line<U>>): Facts<U> {
    var turns := SortedKeys(Mentioned(lines));
    Facts(Recognized(lines), Usages(turns, lines), TurnFacts(turns, lines))
  }

  // ---- The fold ----

  /** The states of all turns mentioned so far. */
  ghost predicate Folded<U>(states: map<string, TurnState<U>>, lines: seq<Line<U>>) {
    && states.Keys == Mentioned(lines)
    && forall turn :: turn in states ==> states[turn] == StateOf(lines, turn)
  }

  function Later(current: Option<Epoch>, epoch: Option<Epoch>): Option<Epoch> {
    if epoch.None? then current
    else if current.None? || current.value.seconds < epoch.value.seconds then epoch
    else current
  }

  lemma {:induction false} LaterIsMax(s: set<Epoch>, epoch: Option<Epoch>)
    ensures Later(MaxOf(s), epoch) == MaxOf(s + if epoch.Some? then {epoch.value} else {})
  {
    if epoch.Some? {
      var m := Later(MaxOf(s), epoch).value;
      MaxIs(m, s + {epoch.value});
    } else {
      assert s + {} == s;
    }
  }

  lemma {:induction false} Snoc<U>(lines: seq<Line<U>>, line: Line<U>, turn: string)
    ensures var more := lines + [line];
      && StartEpochs(more, turn) == StartEpochs(lines, turn) +
           (if line.Started? && line.turn == turn && line.epoch.Some? then {line.epoch.value} else {})
      && CompletionEpochs(more, turn) == CompletionEpochs(lines, turn) +
           (if line.Completed? && line.turn == turn && line.epoch.Some? then {line.epoch.value} else {})
      && LastUsage(more, turn) ==
           (if line.Completed? && line.turn == turn then Some(line.usage) else LastUsage(lines, turn))
  {
    var more := lines + [line];
    assert more[..|lines|] == lines;
    assert forall i :: 0 <= i < |lines| ==> more[i] == lines[i];
    assert more[|lines|] == line;
  }

  lemma {:induction false} SnocCounts<U>(lines: seq<Line<U>>, line: Line<U>)
    ensures var more := lines + [line];
      && Mentioned(more) == Mentioned(lines) + (if line.Started? || line.Completed? then {line.turn} else {})
      && Recognized(more) == Recognized(lines) + if line.Blank? || line.Unrecognized? then 0 else 1
  {
    var more := lines + [line];
    assert more[..|lines|] == lines;
    assert forall i :: 0 <= i < |lines| ==> more[i] == lines[i];
    assert more[|lines|] == line;
  }

  lemma {:induction false} NotMentioned<U>(lines: seq<Line<U>>, turn: string)
    requires turn !in Mentioned(lines)
    ensures StateOf(lines, turn) == TurnState(None, None, None)
  {
    assert StartEpochs(lines, turn) == {} && CompletionEpochs(lines, turn) == {};
    NoUsage(lines, turn);
  }

  lemma {:induction false} NoUsage<U>(lines: seq<Line<U>>, turn: string)
    requires turn !in Mentioned(lines)
    ensures LastUsage(lines, turn) == None
  {
    if lines != [] {
      var init := lines[..|lines| - 1];
      assert forall i :: 0 <= i < |init| ==> init[i] == lines[i];
      NoUsage(init, turn);
    }
  }

  /** What one line makes of the state of a turn. */
  function Noted<U>(s: TurnState<U>, line: Line<U>): TurnState<U> {
    match line
    case Started(_, epoch) => s.(started := Later(s.started, epoch))
    case Completed(_, epoch, usage) => s.(completed := Later(s.completed, epoch), usage := Some(usage))
    case _ => s
  }

  lemma {:induction false} NotedIs<U>(lines: seq<Line<U>>, line: Line<U>, turn: string)
    ensures StateOf(lines + [line], turn) == if Of(line, turn) then Noted(StateOf(lines, turn), line) else StateOf(lines, turn)
  {
    Snoc(lines, line, turn);
    var starts, ends := StartEpochs(lines, turn), CompletionEpochs(lines, turn);
    assert starts + {} == starts && ends + {} == ends;
    if Of(line, turn) {
      LaterIsMax(if line.Started? then starts else ends, line.epoch);
    }
  }

  lemma {:induction false} FoldStep<U>(states: map<string, TurnState<U>>, lines: seq<Line<U>>, line: Line<U>)
    requires Folded(states, lines)
    ensures !(line.Started? || line.Completed?) ==> Folded(states, lines + [line])
    ensures line.Started? || line.Completed? ==>
      var before := if line.turn in states then states[line.turn] else TurnState(None, None, None);
      Folded(states[line.turn := Noted(before, line)], lines + [line])
  {
    SnocCounts(lines, line);
    forall turn ensures StateOf(lines + [line], turn) ==
                        if Of(line, turn) then Noted(StateOf(lines, turn), line) else StateOf(lines, turn)
    {
      NotedIs(lines, line, turn);
    }
    if (line.Started? || line.Completed?) && line.turn !in states {
      NotMentioned(lines, line.turn);
    }
  }

  /** `parse_prompt_usage`. */
  method Parse<U>(lines: seq<Line<U>>) returns (facts: Facts<U>)
    ensures facts == FactsOf(lines)
  {
    var states: map<string, TurnState<U>> := map[];
    var recognized := 0;
    ghost var past: seq<Line<U>> := [];
    for i := 0 to |lines|
      invariant past == lines[..i]
      invariant Folded(states, past) && recognized == Recognized(past)
    {
      var line := lines[i];
      FoldStep(states, past, line);
      SnocCounts(past, line);
      past := past + [line];
      if line.Blank? || line.Unrecognized? {
        continue;
      }
      recognized := recognized + 1;
      if line.Started? || line.Completed? {
        var state := if line.turn in states then states[line.turn] else TurnState(None, None, None);
        states := states[line.turn := Noted(state, line)];
      }
    }
    assert past == lines;
    facts := Collect(lines, states, recognized);
  }

  /** The second loop: turns in the order of their ids. */
  method Collect<U>(ghost lines: seq<Line<U>>, states: map<string, TurnState<U>>, recognized: nat) returns (facts: Facts<U>)
    requires Folded(states, lines) && recognized == Recognized(lines)
    ensures facts == FactsOf(lines)
  {
    var turns := SortedKeys(states.Keys);
    var usages: seq<U>, facts': seq<TurnFact> := [], [];
    ghost var rest, allUsages, allFacts := turns, Usages(turns, lines), TurnFacts(turns, lines);
    for i := 0 to |turns|
      invariant rest == turns[i..]
      invariant Collecting(usages, facts', rest, lines, allUsages, allFacts)
    {
      var state := states[turns[i]];
      CollectStep(usages, facts', rest, lines, allUsages, allFacts);
      usages := usages + UsageOf(state);
      facts' := facts' + FactOf(state);
      rest := rest[1..];
    }
    assert usages + [] == usages && facts' + [] == facts';
    facts := Facts(recognized, usages, facts');
  }

  ghost predicate Collecting<U>(
    usages: seq<U>, facts: seq<TurnFact>, rest: seq<string>, lines: seq<Line<U>>, allUsages: seq<U>, allFacts: seq<TurnFact>)
  {
    usages + Usages(rest, lines) == allUsages && facts + TurnFacts(rest, lines) == allFacts
  }

  lemma {:induction false} CollectStep<U>(
    usages: seq<U>, facts: seq<TurnFact>, rest: seq<string>, lines: seq<Line<U>>, allUsages: seq<U>, allFacts: seq<TurnFact>)
    requires rest != [] && Collecting(usages, facts, rest, lines, allUsages, allFacts)
    ensures var s := StateOf(lines, rest[0]);
      Collecting(usages + UsageOf(s), facts + FactOf(s), rest[1..], lines, allUsages, allFacts)
  {
    var s := StateOf(lines, rest[0]);
    Associative(usages, UsageOf(s), Usages(rest[1..], lines));
    Associative(facts, FactOf(s), TurnFacts(rest[1..], lines));
  }

  // ---- What the facts depend on ----

  function Completions<U>(lines: seq<Line<U>>, turn: string): seq<Line<U>> {
    if lines == [] then []
    else
      var last := lines[|lines| - 1];
      Completions(lines[..|lines| - 1], turn) + if last.Completed? && last.turn == turn then [last] else []
  }

  /** The start lines of a turn, without order or number. */
  function Starts<U(==)>(lines: seq<Line<U>>, turn: string): set<Line<U>> {
    set i | 0 <= i < |lines| && lines[i].Started? && lines[i].turn == turn :: lines[i]
  }

  /** All lines of a turn, in order. */
  function Own<U>(lines: seq<Line<U>>, turn: string): seq<Line<U>> {
    if lines == [] then []
    else
      var last := lines[|lines| - 1];
      Own(lines[..|lines| - 1], turn) + if Of(last, turn) then [last] else []
  }

  lemma {:induction false} UsageOfCompletions<U>(lines: seq<Line<U>>, turn: string)
    ensures LastUsage(lines, turn) ==
            var c := Completions(lines, turn);
            if c == [] || !c[|c| - 1].Completed? then None else Some(c[|c| - 1].usage)
  {
    if lines != [] {
      UsageOfCompletions(lines[..|lines| - 1], turn);
    }
  }

  lemma {:induction false} CompletionsMember<U>(lines: seq<Line<U>>, turn: string, line: Line<U>)
    ensures line in Completions(lines, turn) <==> line in lines && line.Completed? && line.turn == turn
  {
    if lines != [] {
      var init, last := lines[..|lines| - 1], lines[|lines| - 1];
      CompletionsMember(init, turn, line);
      assert line in lines <==> line in init || line == last by {
        assert lines == init + [last];
      }
    }
  }

  lemma {:induction false} EpochsOfCompletions<U>(a: seq<Line<U>>, b: seq<Line<U>>, turn: string)
    requires Completions(a, turn) == Completions(b, turn)
    ensures CompletionEpochs(a, turn) <= CompletionEpochs(b, turn)
    ensures LastUsage(a, turn) == LastUsage(b, turn)
  {
    UsageOfCompletions(a, turn);
    UsageOfCompletions(b, turn);
    forall e | e in CompletionEpochs(a, turn) ensures e in CompletionEpochs(b, turn) {
      var i :| 0 <= i < |a| && a[i].Completed? && a[i].turn == turn && a[i].epoch == Some(e);
      CompletionsMember(a, turn, a[i]);
      CompletionsMember(b, turn, a[i]);
      var j :| 0 <= j < |b| && b[j] == a[i];
    }
  }

  lemma {:induction false} EpochsOfStarts<U>(a: seq<Line<U>>, b: seq<Line<U>>, turn: string)
    requires Starts(a, turn) <= Starts(b, turn)
    ensures StartEpochs(a, turn) <= StartEpochs(b, turn)
  {
    forall e | e in StartEpochs(a, turn) ensures e in StartEpochs(b, turn) {
      var i :| 0 <= i < |a| && a[i].Started? && a[i].turn == turn && a[i].epoch == Some(e);
      assert a[i] in Starts(b, turn);
      var j :| 0 <= j < |b| && b[j] == a[i];
    }
  }

  /** Two journals agree on a turn if its completions are the same list and its starts the same set. */
  ghost predicate Agree<U>(a: seq<Line<U>>, b: seq<Line<U>>, turn: string) {
    Completions(a, turn) == Completions(b, turn) && Starts(a, turn) == Starts(b, turn)
  }

  lemma {:induction false} StatesAgree<U>(a: seq<Line<U>>, b: seq<Line<U>>, turn: string)
    requires Agree(a, b, turn)
    ensures StateOf(a, turn) == StateOf(b, turn)
  {
    EpochsOfCompletions(a, b, turn);
    EpochsOfCompletions(b, a, turn);
    EpochsOfStarts(a, b, turn);
    EpochsOfStarts(b, a, turn);
    assert CompletionEpochs(a, turn) == CompletionEpochs(b, turn) && StartEpochs(a, turn) == StartEpochs(b, turn);
  }

  lemma {:induction false} MentionedAgree<U>(a: seq<Line<U>>, b: seq<Line<U>>, turn: string)
    requires Agree(a, b, turn) && turn in Mentioned(a)
    ensures turn in Mentioned(b)
  {
    var i :| 0 <= i < |a| && (a[i].Started? || a[i].Completed?) && a[i].turn == turn;
    if a[i].Started? {
      assert a[i] in Starts(a, turn);
    } else {
      CompletionsMember(a, turn, a[i]);
      CompletionsMember(b, turn, a[i]);
    }
    var j :| 0 <= j < |b| && b[j] == a[i];
  }

  lemma {:induction false} CollectedAgree<U>(turns: seq<string>, a: seq<Line<U>>, b: seq<Line<U>>)
    requires forall turn :: StateOf(a, turn) == StateOf(b, turn)
    ensures Usages(turns, a) == Usages(turns, b) && TurnFacts(turns, a) == TurnFacts(turns, b)
  {
    if turns != [] {
      CollectedAgree(turns[1..], a, b);
    }
  }

  /** Usages and turns depend only on each turn's completions; its start lines may be reordered or repeated. */
  lemma {:induction false} StartsMayRepeat<U>(a: seq<Line<U>>, b: seq<Line<U>>)
    requires forall turn :: Agree(a, b, turn)
    ensures FactsOf(a).usages == FactsOf(b).usages && FactsOf(a).turns == FactsOf(b).turns
  {
    forall turn ensures StateOf(a, turn) == StateOf(b, turn) && (turn in Mentioned(a) <==> turn in Mentioned(b)) {
      assert Agree(a, b, turn);
      StatesAgree(a, b, turn);
      if turn in Mentioned(a) {
        MentionedAgree(a, b, turn);
      }
      if turn in Mentioned(b) {
        MentionedAgree(b, a, turn);
      }
    }
    assert Mentioned(a) == Mentioned(b);
    CollectedAgree(SortedKeys(Mentioned(a)), a, b);
  }

  lemma {:induction false} CompletionsOfOwn<U>(lines: seq<Line<U>>, turn: string)
    ensures Completions(Own(lines, turn), turn) == Completions(lines, turn)
  {
    if lines != [] {
      var init, last := lines[..|lines| - 1], lines[|lines| - 1];
      CompletionsOfOwn(init, turn);
      if Of(last, turn) {
        assert Own(lines, turn)[..|Own(init, turn)|] == Own(init, turn);
      } else {
        assert Own(lines, turn) == Own(init, turn);
      }
    }
  }

  lemma {:induction false} OwnMember<U>(lines: seq<Line<U>>, turn: string, line: Line<U>)
    ensures line in Own(lines, turn) <==> line in lines && Of(line, turn)
  {
    if lines != [] {
      var init, last := lines[..|lines| - 1], lines[|lines| - 1];
      OwnMember(init, turn, line);
      assert line in lines <==> line in init || line == last by {
        assert lines == init + [last];
      }
    }
  }

  lemma {:induction false} OwnAgree<U>(a: seq<Line<U>>, b: seq<Line<U>>, turn: string)
    requires Own(a, turn) == Own(b, turn)
    ensures Agree(a, b, turn)
  {
    CompletionsOfOwn(a, turn);
    CompletionsOfOwn(b, turn);
    forall line ensures line in Starts(a, turn) <==> line in Starts(b, turn) {
      OwnMember(a, turn, line);
      OwnMember(b, turn, line);
    }
  }

  lemma {:induction false} RecognizedOfMultiset<U>(lines: seq<Line<U>>)
    ensures Recognized(lines) + multiset(lines)[Blank] + multiset(lines)[Unrecognized] == |lines|
  {
    if lines != [] {
      var init, last := lines[..|lines| - 1], lines[|lines| - 1];
      assert lines == init + [last];
      RecognizedOfMultiset(init);
    }
  }

  /** Any re-interleaving of the lines that keeps the order within each turn gives the same facts. */
  lemma {:induction false} ReinterleavingKeepsFacts<U>(a: seq<Line<U>>, b: seq<Line<U>>)
    requires multiset(a) == multiset(b) && forall turn :: Own(a, turn) == Own(b, turn)
    ensures FactsOf(a) == FactsOf(b)
  {
    forall turn ensures Agree(a, b, turn) {
      OwnAgree(a, b, turn);
    }
    StartsMayRepeat(a, b);
    RecognizedOfMultiset(a);
    RecognizedOfMultiset(b);
    assert |a| == |multiset(a)| == |multiset(b)| == |b|;
  }

  // ---- One usage per turn ----

  /** Line `i` is the last completion of the turn. */
  ghost predicate LastCompletion<U>(lines: seq<Line<U>>, turn: string, i: nat) {
    && i < |lines| && lines[i].Completed? && lines[i].turn == turn
    && forall j :: i < j < |lines| && lines[j].Completed? ==> lines[j].turn != turn
  }

  lemma {:induction false} LastUsageIs<U>(lines: seq<Line<U>>, turn: string, i: nat)
    requires LastCompletion(lines, turn, i)
    ensures LastUsage(lines, turn) == Some(lines[i].usage)
  {
    if i < |lines| - 1 {
      var init := lines[..|lines| - 1];
      assert LastCompletion(init, turn, i);
      LastUsageIs(init, turn, i);
    }
  }

  lemma {:induction false} UsageIff<U>(lines: seq<Line<U>>, turn: string)
    ensures LastUsage(lines, turn).Some? <==> exists i: nat :: LastCompletion(lines, turn, i)
  {
    if lines != [] {
      var init, last := lines[..|lines| - 1], lines[|lines| - 1];
      if last.Completed? && last.turn == turn {
        assert LastCompletion(lines, turn, |lines| - 1);
      } else {
        UsageIff(init, turn);
        if i: nat :| LastCompletion(init, turn, i) {
          assert LastCompletion(lines, turn, i);
        }
        if i: nat :| LastCompletion(lines, turn, i) {
          assert LastCompletion(init, turn, i);
        }
      }
    }
  }

  /** The turns of a list that were completed. */
  ghost function CompletedTurns<U>(turns: seq<string>, lines: seq<Line<U>>): (r: seq<string>)
    ensures forall t :: t in r <==> t in turns && LastUsage(lines, t).Some?
  {
    if turns == [] then []
    else
      var rest := CompletedTurns(turns[1..], lines);
      assert forall t :: t in turns <==> t == turns[0] || t in turns[1..];
      (if LastUsage(lines, turns[0]).Some? then [turns[0]] else []) + rest
  }

  lemma {:induction false} UsagesPerTurn<U>(turns: seq<string>, lines: seq<Line<U>>)
    ensures var done := CompletedTurns(turns, lines);
      && |Usages(turns, lines)| == |done|
      && forall k :: 0 <= k < |done| ==> LastUsage(lines, done[k]) == Some(Usages(turns, lines)[k])
  {
    if turns != [] {
      UsagesPerTurn(turns[1..], lines);
    }
  }

  lemma {:induction false} CompletedSorted<U>(turns: seq<string>, lines: seq<Line<U>>)
    requires Sorted(turns)
    ensures Sorted(CompletedTurns(turns, lines))
  {
    if turns != [] {
      var rest := CompletedTurns(turns[1..], lines);
      CompletedSorted(turns[1..], lines);
      forall j | 0 <= j < |rest| ensures Less(turns[0], rest[j]) {
        assert rest[j] in turns[1..];
      }
    }
  }

  /**
   However often a turn completes, it contributes exactly one usage, that of its last completion; turns
   that never complete contribute none. The usages stand in the order of the turn ids.
   */
  lemma {:induction false} OneUsagePerTurn<U>(lines: seq<Line<U>>)
    ensures var done := CompletedTurns(SortedKeys(Mentioned(lines)), lines);
      && Sorted(done) && |FactsOf(lines).usages| == |done|
      && (forall turn :: turn in done <==> exists i: nat :: LastCompletion(lines, turn, i))
      && forall k, i: nat :: 0 <= k < |done| && LastCompletion(lines, done[k], i) ==>
           FactsOf(lines).usages[k] == lines[i].usage
  {
    var turns := SortedKeys(Mentioned(lines));
    var done := CompletedTurns(turns, lines);
    UsagesPerTurn(turns, lines);
    CompletedSorted(turns, lines);
    forall turn ensures turn in done <==> exists i: nat :: LastCompletion(lines, turn, i) {
      UsageIff(lines, turn);
      if turn !in Mentioned(lines) {
        NoUsage(lines, turn);
      }
    }
    forall k, i: nat | 0 <= k < |done| && LastCompletion(lines, done[k], i)
      ensures FactsOf(lines).usages[k] == lines[i].usage
    {
      LastUsageIs(lines, done[k], i);
    }
  }

  // ---- One fact per turn ----

  /** Some line of the turn that satisfies the choice carries this time, and none carries a later one. */
  ghost predicate LatestTime<U>(lines: seq<Line<U>>, turn: string, completed: bool, epoch: Epoch) {
    && (exists i :: TimeAt(lines, turn, completed, i, epoch))
    && forall i, other :: TimeAt(lines, turn, completed, i, other) ==> other.seconds <= epoch.seconds
  }

  predicate TimeAt<U>(lines: seq<Line<U>>, turn: string, completed: bool, i: int, epoch: Epoch) {
    && 0 <= i < |lines| && (if completed then lines[i].Completed? else lines[i].Started?)
    && lines[i].turn == turn && lines[i].epoch == Some(epoch)
  }

  /** The time of the turn's latest dated completion, or of its latest dated start if no completion is dated. */
  ghost predicate DatedBy<U>(lines: seq<Line<U>>, turn: string, epoch: Epoch) {
    if exists i, other :: TimeAt(lines, turn, true, i, other) then LatestTime(lines, turn, true, epoch)
    else LatestTime(lines, turn, false, epoch)
  }

  lemma {:induction false} TimesAre<U>(lines: seq<Line<U>>, turn: string, epoch: Epoch)
    ensures epoch in CompletionEpochs(lines, turn) <==> exists i :: TimeAt(lines, turn, true, i, epoch)
    ensures epoch in StartEpochs(lines, turn) <==> exists i :: TimeAt(lines, turn, false, i, epoch)
  {
    if epoch in CompletionEpochs(lines, turn) {
      var i :| 0 <= i < |lines| && lines[i].Completed? && lines[i].turn == turn && lines[i].epoch == Some(epoch);
      assert TimeAt(lines, turn, true, i, epoch);
    }
    if epoch in StartEpochs(lines, turn) {
      var i :| 0 <= i < |lines| && lines[i].Started? && lines[i].turn == turn && lines[i].epoch == Some(epoch);
      assert TimeAt(lines, turn, false, i, epoch);
    }
  }

  lemma {:induction false} LatestIs<U>(lines: seq<Line<U>>, turn: string, completed: bool)
    ensures var latest := MaxOf(if completed then CompletionEpochs(lines, turn) else StartEpochs(lines, turn));
      && (latest.Some? <==> exists i, epoch :: TimeAt(lines, turn, completed, i, epoch))
      && (latest.Some? ==> LatestTime(lines, turn, completed, latest.value))
  {
    var s := if completed then CompletionEpochs(lines, turn) else StartEpochs(lines, turn);
    forall epoch ensures epoch in s <==> exists i :: TimeAt(lines, turn, completed, i, epoch) {
      TimesAre(lines, turn, epoch);
    }
    if s != {} {
      var epoch :| epoch in s;
      var i :| TimeAt(lines, turn, completed, i, epoch);
    }
    if i, epoch :| TimeAt(lines, turn, completed, i, epoch) {
      assert epoch in s;
    }
  }

  /** The turns of a list that have a fact. */
  ghost function DatedTurns<U>(turns: seq<string>, lines: seq<Line<U>>): (r: seq<string>)
    ensures forall t :: t in r <==> t in turns && FactOf(StateOf(lines, t)) != []
  {
    if turns == [] then []
    else
      var rest := DatedTurns(turns[1..], lines);
      assert forall t :: t in turns <==> t == turns[0] || t in turns[1..];
      (if FactOf(StateOf(lines, turns[0])) != [] then [turns[0]] else []) + rest
  }

  lemma {:induction false} FactsPerTurn<U>(turns: seq<string>, lines: seq<Line<U>>)
    ensures var dated := DatedTurns(turns, lines);
      && |TurnFacts(turns, lines)| == |dated|
      && forall k :: 0 <= k < |dated| ==> FactOf(StateOf(lines, dated[k])) == [TurnFacts(turns, lines)[k]]
  {
    if turns != [] {
      FactsPerTurn(turns[1..], lines);
    }
  }

  lemma {:induction false} DatedSorted<U>(turns: seq<string>, lines: seq<Line<U>>)
    requires Sorted(turns)
    ensures Sorted(DatedTurns(turns, lines))
  {
    if turns != [] {
      var rest := DatedTurns(turns[1..], lines);
      DatedSorted(turns[1..], lines);
      forall j | 0 <= j < |rest| ensures Less(turns[0], rest[j]) {
        assert rest[j] in turns[1..];
      }
    }
  }

  lemma {:induction false} FactIs<U>(lines: seq<Line<U>>, turn: string)
    ensures var facts := FactOf(StateOf(lines, turn));
      && (facts != [] <==> exists i, completed, epoch :: TimeAt(lines, turn, completed, i, epoch))
      && (facts != [] ==>
            && DatedBy(lines, turn, facts[0].activityEpoch)
            && (facts[0].completed <==> exists i: nat :: LastCompletion(lines, turn, i)))
  {
    LatestIs(lines, turn, true);
    LatestIs(lines, turn, false);
    UsageIff(lines, turn);
  }

  /**
   Every turn with a dated line has exactly one fact, in the order of the turn ids: its time is that of its
   latest dated completion, or else of its latest dated start, and it says whether the turn was completed.
   */
  lemma {:induction false} OneFactPerTurn<U>(lines: seq<Line<U>>)
    ensures var dated := DatedTurns(SortedKeys(Mentioned(lines)), lines);
      && Sorted(dated) && |FactsOf(lines).turns| == |dated|
      && (forall turn :: turn in dated <==> exists i, completed, epoch :: TimeAt(lines, turn, completed, i, epoch))
      && forall k :: 0 <= k < |dated| ==>
           && DatedBy(lines, dated[k], FactsOf(lines).turns[k].activityEpoch)
           && (FactsOf(lines).turns[k].completed <==> exists i: nat :: LastCompletion(lines, dated[k], i))
  {
    var turns := SortedKeys(Mentioned(lines));
    var dated := DatedTurns(turns, lines);
    FactsPerTurn(turns, lines);
    DatedSorted(turns, lines);
    forall turn ensures turn in dated <==> exists i, completed, epoch :: TimeAt(lines, turn, completed, i, epoch) {
      FactIs(lines, turn);
      TimedMentioned(lines, turn);
    }
    forall k | 0 <= k < |dated|
      ensures DatedBy(lines, dated[k], FactsOf(lines).turns[k].activityEpoch)
      ensures FactsOf(lines).turns[k].completed <==> exists i: nat :: LastCompletion(lines, dated[k], i)
    {
      FactIs(lines, dated[k]);
    }
  }

  lemma {:induction false} TimedMentioned<U>(lines: seq<Line<U>>, turn: string)
    ensures (exists i, completed, epoch :: TimeAt(lines, turn, completed, i, epoch)) ==> turn in Mentioned(lines)
  {
  }

  /** The lines that count as recognized are those that are neither blank nor unreadable. */
  lemma {:induction false} RecognizedCounts<U>(lines: seq<Line<U>>, line: Line<U>)
    ensures FactsOf<U>([]).recognized == 0
    ensures FactsOf(lines + [line]).recognized ==
      FactsOf(lines).recognized + match line case Blank => 0 case Unrecognized => 0 case _ => 1
  {
    SnocCounts(lines, line);
  }
}
