/** Concrete runs on which a tempting statement fails. Each is the reason a theorem elsewhere
carries the condition it has. */
module Examples {
  import opened Lists
  import opened Discipline
  import opened Guarantees
  import opened TwoPolicies

  type Call = Op<int, int>
  type Line = State<int, int>

  // ---------- following a run ----------

  lemma AfterNone(st: Line, ops: seq<Call>)
    ensures After(st, ops[..0]) == st
  {
  }

  lemma AfterNext(st: Line, ops: seq<Call>, k: nat)
    requires k < |ops|
    ensures After(st, ops[..k + 1]) == Step(After(st, ops[..k]), ops[k]).0
  {
    hide Step;
    assert ops[..k + 1][..k] == ops[..k];
  }

  /** Marking a member of the group at place `i` of the line. */
  lemma MarksAt(st: Line, i: nat, m: int)
    requires i < |st.waiting| && st.Holds(st.waiting[i], m)
    requires forall j | 0 <= j < i :: !st.Holds(st.waiting[j], m)
    ensures Step(st, MarkReady(m)).0 == st.Mark(st.waiting[i], m)
  {
    hide First;
    FirstAt(st.waiting, st.WithMember(m), i);
  }

  // ---------- the younger group overtakes ----------

  const OLDER: Call := Admit(Some(0), Items([0]))
  const YOUNGER: Call := Admit(Some(1), Items([1]))

  /** The younger group is completed, and leaves the relaxed queue only. */
  function Opening(): seq<Call> {
    [OLDER, YOUNGER, MarkHeld(1, 1), Release]
  }

  ghost function Older(marked: set<int>): Party<int, int> { Party(Some(0), [0], marked) }

  ghost function Younger(marked: set<int>): Party<int, int> { Party(Some(1), [1], marked) }

  ghost function One(strict: bool): Line { State(strict, [Older({})], [0], [], [], []) }

  ghost function Two(strict: bool, marked: set<int>): Line {
    State(strict, [Older({}), Younger(marked)], [0, 1], [], [], [])
  }

  ghost function Overtaken(): Line { State(false, [Older({}), Younger({1})], [0], [1], [], []) }

  lemma OlderEnters(strict: bool)
    ensures Step(Init<int, int>(strict), OLDER).0 == One(strict)
  {
  }

  lemma YoungerEnters(strict: bool)
    ensures Step(One(strict), YOUNGER).0 == Two(strict, {})
  {
    assert One(strict).CanAdmit(Some(1), [1]);
  }

  lemma YoungerReady(strict: bool)
    ensures Step(Two(strict, {}), MarkHeld(1, 1)).0 == Two(strict, {1})
  {
    hide First, Prefix, Keep, Drop;
    assert Younger({}).Mark(1) == Younger({1});
  }

  lemma OnlyYoungerReady()
    ensures forall strict: bool :: 0 !in Two(strict, {1}).ReadySet() && 1 in Two(strict, {1}).ReadySet()
  {
    assert 0 in Elements(Older({}).members) && !Older({}).Ready();
    assert Younger({1}).Ready();
  }

  /** Under relaxed order the younger group leaves; under strict order nobody does. */
  lemma YoungerLeaves()
    ensures Step(Two(true, {1}), Release).0 == Two(true, {1})
    ensures Step(Two(false, {1}), Release).0 == Overtaken()
  {
    hide First, Drop;
    var b := Two(false, {1});
    OnlyYoungerReady();
    FirstAt(b.waiting, b.ReadySet(), 1);
    DropAt(b.waiting, 1);
    var gone: seq<nat> := [1];
    assert Elements(gone) == {1} && b.Next() == Some(1);
    assert b.waiting[..1] + b.waiting[2..] == [0];
    assert b.Depart(gone, Left).waiting == [0];
  }

  lemma OpeningRuns(strict: bool, ops: seq<Call>)
    requires |ops| >= 4 && ops[..4] == Opening()
    ensures After(Init<int, int>(strict), ops[..0]) == Init<int, int>(strict)
    ensures After(Init<int, int>(strict), ops[..1]) == One(strict)
    ensures After(Init<int, int>(strict), ops[..2]) == Two(strict, {})
    ensures After(Init<int, int>(strict), ops[..3]) == Two(strict, {1})
    ensures After(Init<int, int>(strict), ops[..4]) == if strict then Two(true, {1}) else Overtaken()
  {
    hide Step, After, One, Two, Overtaken;
    var none := Init<int, int>(strict);
    assert ops[0] == ops[..4][0] && ops[1] == ops[..4][1] && ops[2] == ops[..4][2] && ops[3] == ops[..4][3];
    AfterNone(none, ops);
    AfterNext(none, ops, 0);
    AfterNext(none, ops, 1);
    AfterNext(none, ops, 2);
    AfterNext(none, ops, 3);
    OlderEnters(strict);
    YoungerEnters(strict);
    YoungerReady(strict);
    YoungerLeaves();
  }

  // ---------- out of line with each other, and still not later ----------

  /** Then its id and member are free in the relaxed queue, and taken in the strict one. */
  function Overtaking(): seq<Call> {
    Opening() + [YOUNGER]
  }

  lemma YoungerReturns()
    ensures SplitAdmission(Two(true, {1}), Overtaken(), YOUNGER)
    ensures Step(Two(true, {1}), YOUNGER).0 == Two(true, {1})
  {
    var a := Two(true, {1});
    assert 1 in a.waiting && 1 in a.WithId(Some(1));
  }

  /** Here the queues stop being aligned, and the relaxed one is not yet later at any moment: a
      split makes lateness possible, and it takes further calls to come about. */
  lemma OvertakingSplits()
    ensures !Together(Overtaking(), 4)
    ensures exists n :: 0 <= n <= |Overtaking()| && !AheadAfter(Overtaking()[..n])
    ensures forall n | 0 <= n <= |Overtaking()| :: NoneLater(Overtaking()[..n])
  {
    hide Step, After, SplitAdmission, AheadAfter, Overtaken, Number;
    var ops := Overtaking();
    assert ops[..4] == Opening();
    OpeningRuns(true, ops);
    OpeningRuns(false, ops);
    YoungerReturns();
    AfterNext(Init<int, int>(true), ops, 4);
    AlignedIff(ops);
    forall n | 0 <= n <= |ops| ensures NoneLater(ops[..n]) {
      assert n == 0 || n == 1 || n == 2 || n == 3 || n == 4 || n == 5;
      assert After(Init<int, int>(true), ops[..n]).released == [];
    }
  }

  // ---------- later after all ----------

  const NEWCOMER: Call := Admit(Some(5), Items([5]))

  /** The relaxed queue alone readmits the younger group. Both queues then lose all other groups,
      and both accept a newcomer. The readmitted group and the newcomer are completed, and one
      group leaves: the newcomer in the strict queue, the readmitted group in the relaxed one. */
  function Delayed(): seq<Call> {
    Opening() + [YOUNGER, MarkReady(0), ReleaseAll, NEWCOMER, MarkReady(1), MarkReady(5), Release]
  }

  ghost function Newcomer(marked: set<int>): Party<int, int> { Party(Some(5), [5], marked) }

  ghost function StrictAt(all: seq<Party<int, int>>, waiting: seq<nat>, released: seq<nat>): Line {
    State(true, all, waiting, released, [], [])
  }

  ghost function RelaxedAt(all: seq<Party<int, int>>, waiting: seq<nat>, released: seq<nat>): Line {
    State(false, all, waiting, released, [], [])
  }

  lemma StrictMarks()
    ensures Step(Two(true, {1}), MarkReady(0)).0 == StrictAt([Older({0}), Younger({1})], [0, 1], [])
  {
    hide First, Drop;
    MarksAt(Two(true, {1}), 0, 0);
    assert Older({}).Mark(0) == Older({0});
  }

  lemma StrictEmpties()
    ensures Step(StrictAt([Older({0}), Younger({1})], [0, 1], []), ReleaseAll).0 ==
      StrictAt([Older({0}), Younger({1})], [], [0, 1])
  {
    hide First, Drop, Prefix;
    var b := StrictAt([Older({0}), Younger({1})], [0, 1], []);
    assert Older({0}).Ready() && Younger({1}).Ready();
    assert 0 in b.ReadySet() && 1 in b.ReadySet();
    PrefixIs(b.waiting, b.ReadySet(), 2);
    DropAll(b.waiting, Elements(b.waiting));
    assert b.released + b.waiting == [0, 1];
  }

  lemma NewcomerJoins(line: Line)
    requires line.CanAdmit(Some(5), [5])
    ensures Step(line, NEWCOMER).1 == Maybe(Some(|line.all|))
    ensures Step(line, NEWCOMER).0 == line.(all := line.all + [Newcomer({})], waiting := line.waiting + [|line.all|])
  {
    hide State.CanAdmit;
  }

  lemma StrictGreets()
    ensures Step(StrictAt([Older({0}), Younger({1})], [], [0, 1]), NEWCOMER) ==
      (StrictAt([Older({0}), Younger({1}), Newcomer({})], [2], [0, 1]), Maybe(Some(2)))
  {
    var line := StrictAt([Older({0}), Younger({1})], [], [0, 1]);
    assert line.CanAdmit(Some(5), [5]);
    NewcomerJoins(line);
    assert line.all + [Newcomer({})] == [Older({0}), Younger({1}), Newcomer({})];
    assert Step(line, NEWCOMER).0 == StrictAt([Older({0}), Younger({1}), Newcomer({})], [2], [0, 1]);
  }

  lemma StrictCompletes()
    ensures var joined := StrictAt([Older({0}), Younger({1}), Newcomer({})], [2], [0, 1]);
      && Step(joined, MarkReady(1)).0 == joined
      && Step(joined, MarkReady(5)).0 == StrictAt([Older({0}), Younger({1}), Newcomer({5})], [2], [0, 1])
  {
    hide First, Prefix, Keep, Drop;
    var joined := StrictAt([Older({0}), Younger({1}), Newcomer({})], [2], [0, 1]);
    assert 2 !in joined.WithMember(1);
    MarksAt(joined, 0, 5);
    assert Newcomer({}).Mark(5) == Newcomer({5});
  }

  lemma StrictReleases()
    ensures Step(StrictAt([Older({0}), Younger({1}), Newcomer({5})], [2], [0, 1]), Release).0 ==
      StrictAt([Older({0}), Younger({1}), Newcomer({5})], [], [0, 1, 2])
  {
    hide Drop, Prefix, Keep;
    var b := StrictAt([Older({0}), Younger({1}), Newcomer({5})], [2], [0, 1]);
    assert Newcomer({5}).Ready();
    var gone: seq<nat> := [2];
    DropAll(b.waiting, Elements(gone));
  }

  lemma RelaxedSplits()
    ensures Step(Overtaken(), YOUNGER).0 == RelaxedAt([Older({}), Younger({1}), Younger({})], [0, 2], [1])
  {
    hide Prefix, Keep, Drop;
    assert Overtaken().CanAdmit(Some(1), [1]);
  }

  lemma RelaxedMarks()
    ensures Step(RelaxedAt([Older({}), Younger({1}), Younger({})], [0, 2], [1]), MarkReady(0)).0 ==
      RelaxedAt([Older({0}), Younger({1}), Younger({})], [0, 2], [1])
  {
    hide First;
    MarksAt(RelaxedAt([Older({}), Younger({1}), Younger({})], [0, 2], [1]), 0, 0);
    assert Older({}).Mark(0) == Older({0});
  }

  lemma RelaxedDrains()
    ensures Step(RelaxedAt([Older({0}), Younger({1}), Younger({})], [0, 2], [1]), ReleaseAll).0 ==
      RelaxedAt([Older({0}), Younger({1}), Younger({})], [2], [1, 0])
  {
    hide First, Drop, Keep;
    var a := RelaxedAt([Older({0}), Younger({1}), Younger({})], [0, 2], [1]);
    assert Older({0}).Ready() && 1 in Elements(Younger({}).members) && !Younger({}).Ready();
    assert 0 in a.ReadySet() && 2 !in a.ReadySet();
    var gone: seq<nat> := [0];
    KeepIncreasing(a.waiting, a.ReadySet());
    IncreasingUnique(Keep(a.waiting, a.ReadySet()), gone);
    DropAt(a.waiting, 0);
    assert Elements(gone) == {0} && a.waiting[..0] + a.waiting[1..] == [2];
  }

  lemma RelaxedGreets()
    ensures Step(RelaxedAt([Older({0}), Younger({1}), Younger({})], [2], [1, 0]), NEWCOMER) ==
      (RelaxedAt([Older({0}), Younger({1}), Younger({}), Newcomer({})], [2, 3], [1, 0]), Maybe(Some(3)))
  {
    hide Prefix, Keep, Drop;
    var line := RelaxedAt([Older({0}), Younger({1}), Younger({})], [2], [1, 0]);
    assert line.CanAdmit(Some(5), [5]);
    NewcomerJoins(line);
    assert line.all + [Newcomer({})] == [Older({0}), Younger({1}), Younger({}), Newcomer({})];
    assert line.waiting + [3] == [2, 3];
    assert Step(line, NEWCOMER).0 ==
      RelaxedAt([Older({0}), Younger({1}), Younger({}), Newcomer({})], [2, 3], [1, 0]);
  }

  lemma RelaxedCompletes()
    ensures var joined := RelaxedAt([Older({0}), Younger({1}), Younger({}), Newcomer({})], [2, 3], [1, 0]);
      var one := RelaxedAt([Older({0}), Younger({1}), Younger({1}), Newcomer({})], [2, 3], [1, 0]);
      && Step(joined, MarkReady(1)).0 == one
      && Step(one, MarkReady(5)).0 == RelaxedAt([Older({0}), Younger({1}), Younger({1}), Newcomer({5})], [2, 3], [1, 0])
  {
    hide First, Prefix, Keep, Drop;
    MarksAt(RelaxedAt([Older({0}), Younger({1}), Younger({}), Newcomer({})], [2, 3], [1, 0]), 0, 1);
    MarksAt(RelaxedAt([Older({0}), Younger({1}), Younger({1}), Newcomer({})], [2, 3], [1, 0]), 1, 5);
    assert Younger({}).Mark(1) == Younger({1}) && Newcomer({}).Mark(5) == Newcomer({5});
  }

  lemma RelaxedReleases()
    ensures var line := RelaxedAt([Older({0}), Younger({1}), Younger({1}), Newcomer({5})], [2, 3], [1, 0]);
      var left := Step(line, Release).0;
      left.released == [1, 0, 2] && left.waiting == [3]
  {
    hide First, Prefix, Keep, Drop, State.ReadySet;
    var line := RelaxedAt([Older({0}), Younger({1}), Younger({1}), Newcomer({5})], [2, 3], [1, 0]);
    ReadmittedReady(line);
    FirstAt(line.waiting, line.ReadySet(), 0);
    DropAt(line.waiting, 0);
    var gone: seq<nat> := [2];
    assert Elements(gone) == {2} && line.waiting[..0] + line.waiting[1..] == [3];
    assert line.released + gone == [1, 0, 2];
  }

  lemma ReadmittedReady(line: Line)
    requires |line.all| > 2 && line.all[2] == Younger({1})
    ensures 2 in line.ReadySet()
  {
    assert Younger({1}).Ready();
  }

  lemma DelayedStrict()
    ensures Number(true, Delayed(), 7) == Some(2)
    ensures 2 in After(Init<int, int>(true), Delayed()[..11]).released
  {
    hide Step, After, Two;
    var ops, none := Delayed(), Init<int, int>(true);
    assert ops[..4] == Opening();
    OpeningRuns(true, ops);
    AfterNext(none, ops, 4);
    AfterNext(none, ops, 5);
    AfterNext(none, ops, 6);
    AfterNext(none, ops, 7);
    AfterNext(none, ops, 8);
    AfterNext(none, ops, 9);
    AfterNext(none, ops, 10);
    YoungerReturns();
    StrictMarks();
    StrictEmpties();
    StrictGreets();
    StrictCompletes();
    StrictReleases();
  }

  lemma DelayedRelaxed()
    ensures Number(false, Delayed(), 7) == Some(3)
    ensures var line := After(Init<int, int>(false), Delayed()[..11]);
      line.released == [1, 0, 2] && line.waiting == [3]
  {
    hide Step, After, Overtaken;
    var ops, none := Delayed(), Init<int, int>(false);
    assert ops[..4] == Opening();
    OpeningRuns(false, ops);
    AfterNext(none, ops, 4);
    AfterNext(none, ops, 5);
    AfterNext(none, ops, 6);
    AfterNext(none, ops, 7);
    AfterNext(none, ops, 8);
    AfterNext(none, ops, 9);
    AfterNext(none, ops, 10);
    RelaxedSplits();
    RelaxedMarks();
    RelaxedDrains();
    RelaxedGreets();
    RelaxedCompletes();
    RelaxedReleases();
  }

  /** Both queues accept the newcomer, as number 2 and as number 3. At the end the strict queue has
      released it, and the relaxed queue still holds it. */
  lemma DelayedIsLate()
    ensures Number(true, Delayed(), 7) == Some(2) && Number(false, Delayed(), 7) == Some(3)
    ensures 2 in After(Init<int, int>(true), Delayed()).released
    ensures 3 in After(Init<int, int>(false), Delayed()).waiting
    ensures Late(Delayed(), 7) && !NoneLater(Delayed())
  {
    hide After, Number;
    assert Delayed()[..11] == Delayed();
    DelayedStrict();
    DelayedRelaxed();
  }

  // ---------- leaving before being ready, and making way ----------

  /** Clearing is a second way, besides cancelling, to leave before every member is ready. */
  lemma ClearTakesUnready()
    ensures 0 in One(true).waiting && 0 !in One(true).ReadySet()
    ensures Step(One(true), Clear).1 == Many([0]) && Step(One(true), Clear).0.cleared == [0]
  {
    assert 0 in Elements(Older({}).members) && !Older({}).Ready();
  }

  /** Under strict order cancelling the head lets a ready group behind it leave. */
  lemma CancelMakesWay()
    ensures Two(true, {1}).Departing() == []
    ensures Step(Two(true, {1}), Cancel(Some(0))).0.Departing() == [1]
  {
    hide First, Drop, Prefix;
    var a := Two(true, {1});
    OnlyYoungerReady();
    PrefixIs(a.waiting, a.ReadySet(), 0);
    HeadCancelled();
    var b := Step(a, Cancel(Some(0))).0;
    PrefixIs(b.waiting, b.ReadySet(), 1);
  }

  lemma HeadCancelled()
    ensures var a, b := Two(true, {1}), Step(Two(true, {1}), Cancel(Some(0))).0;
      b.strict && b.waiting == [1] && b.ReadySet() == a.ReadySet()
  {
    hide First, Drop;
    var a := Two(true, {1});
    FirstAt(a.waiting, a.WithId(Some(0)), 0);
    DropAt(a.waiting, 0);
    var gone: seq<nat> := [0];
    assert Elements(gone) == {0} && a.waiting[..0] + a.waiting[1..] == [1];
  }

  // ---------- the two Python queues differ ----------

  /** The scan queue takes a bare string for its letters; the package refuses it. */
  lemma BareStringDiverges()
    ensures var ops: seq<Call> := [Admit(Some(0), Text([0, 1]))];
      ScanOutcomes(Init<int, int>(true), ops) != Outcomes(Init<int, int>(true), ops)
  {
    hide First;
    var ops: seq<Call> := [Admit(Some(0), Text([0, 1]))];
    assert ops[..0] == [];
    assert Init<int, int>(true).CanAdmit(Some(0), [0, 1]);
    assert Diverges(After(Init<int, int>(true), ops[..0]), ops[0]);
    RunsAgree(Init<int, int>(true), ops);
  }

  /** The scan queue loses sight of a group admitted as None; the package marks it. */
  lemma NoneIdDiverges()
    ensures var ops: seq<Call> := [Admit(None, Items([0])), MarkReady(0)];
      ScanOutcomes(Init<int, int>(true), ops) != Outcomes(Init<int, int>(true), ops)
  {
    var ops: seq<Call> := [Admit(None, Items([0])), MarkReady(0)];
    var none := Init<int, int>(true);
    var st: Line := State(true, [Party(None, [0], {})], [0], [], [], []);
    AfterNone(none, ops);
    AfterNext(none, ops, 0);
    assert Step(none, ops[0]).0 == st;
    NoneHolds(st);
    assert Diverges(After(none, ops[..1]), ops[1]);
    RunsAgree(none, ops);
  }

  lemma NoneHolds(st: Line)
    requires st.all == [Party(None, [0], {})] && st.waiting == [0]
    ensures HeldByNone(st, 0)
  {
    FirstAt(st.waiting, st.WithMember(0), 0);
  }
}
