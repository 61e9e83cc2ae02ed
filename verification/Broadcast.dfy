/** Group broadcast over a grid: members are numbered row by row, the last row may be incomplete, and each
    member forwards a message at most once. */
module Broadcast {

  // ----- The grid

  type RowSize = r: nat | 1 <= r witness 1

  function Row(r: RowSize, x: nat): nat { x / r }

  function Col(r: RowSize, x: nat): nat { x % r }

  /** The member at a row and column. */
  function Cell(r: RowSize, row: nat, col: nat): nat { row * r + col }

  lemma CellAt(r: RowSize, row: nat, col: nat)
    requires col < r
    ensures Row(r, Cell(r, row, col)) == row && Col(r, Cell(r, row, col)) == col
  {
    DivMod(row, col, r);
  }

  lemma DivMod(q: nat, c: nat, r: nat)
    requires c < r
    ensures (q * r + c) / r == q && (q * r + c) % r == c
  {
    var x := q * r + c;
    assert x == x / r * r + x % r;
    if x / r < q { Times(x / r, q - 1, r); Times(q - 1, q - 1, r); }
    if x / r > q { Times(q + 1, x / r, r); Times(q, q, r); }
  }

  lemma Times(a: nat, b: nat, r: nat)
    requires a <= b
    ensures a * r <= b * r && (a + 1) * r == a * r + r
  {
  }

  lemma CellOf(r: RowSize, x: nat)
    ensures Cell(r, Row(r, x), Col(r, x)) == x && Col(r, x) < r
  {
  }

  predicate RowMate(n: nat, r: RowSize, x: nat, y: nat) { x < n && x != y && Row(r, x) == Row(r, y) }

  predicate ColumnMate(n: nat, r: RowSize, x: nat, y: nat) { x < n && x != y && Col(r, x) == Col(r, y) }

  /** The member in the first column of a member's row. */
  function Hub(r: RowSize, x: nat): nat { Cell(r, Row(r, x), 0) }

  lemma HubIs(r: RowSize, x: nat)
    ensures Hub(r, x) <= x && Row(r, Hub(r, x)) == Row(r, x) && Col(r, Hub(r, x)) == 0
  {
    CellAt(r, Row(r, x), 0);
    CellOf(r, x);
  }

  lemma OnlyHub(r: RowSize, x: nat, z: nat)
    requires Row(r, z) == Row(r, x) && Col(r, z) == 0
    ensures z == Hub(r, x)
  {
    CellOf(r, z);
  }

  // ----- Messages

  datatype Kind = Whole | Column | InRow

  datatype Msg = Msg(dst: nat, kind: Kind)

  /** Messages in flight, and the members that have handled and forwarded the broadcast. */
  datatype Net = Net(flying: multiset<Msg>, handled: set<nat>, forwarded: set<nat>)

  function ColumnMsgs(n: nat, r: RowSize, x: nat): set<Msg> {
    set y | 0 <= y < n && ColumnMate(n, r, y, x) :: Msg(y, Column)
  }

  function RowMsgs(n: nat, r: RowSize, x: nat): set<Msg> {
    set y | 0 <= y < n && RowMate(n, r, y, x) :: Msg(y, InRow)
  }

  /** What a member sends on the first time it receives a message of a kind. */
  function Forwards(n: nat, r: RowSize, x: nat, kind: Kind): set<Msg> {
    match kind
    case Whole => ColumnMsgs(n, r, x) + RowMsgs(n, r, x)
    case Column => RowMsgs(n, r, x)
    case InRow => {}
  }

  /** Delivers a message: it is handled once; a row message is not forwarded, any other one only the first time. */
  function Deliver(n: nat, r: RowSize, st: Net, m: Msg): Net {
    if m.kind.InRow? || m.dst in st.forwarded then
      st.(flying := st.flying - multiset{m}, handled := st.handled + {m.dst})
    else
      Net(st.flying - multiset{m} + multiset(Forwards(n, r, m.dst, m.kind)),
          st.handled + {m.dst}, st.forwarded + {m.dst})
  }

  /** The first sends of the source `s`: its column, and its row split in two. */
  function Sent(n: nat, r: RowSize, s: nat, whole: set<nat>): multiset<Msg> {
    multiset(ColumnMsgs(n, r, s)) +
    multiset(set y | 0 <= y < n && RowMate(n, r, y, s) :: Msg(y, if y in whole then Whole else InRow))
  }

  function Start(n: nat, r: RowSize, s: nat, whole: set<nat>): Net {
    Net(Sent(n, r, s, whole), {}, {})
  }

  /** A run delivers messages in flight, one after the other, in any order. */
  predicate IsRun(n: nat, r: RowSize, st: Net, ms: seq<Msg>) {
    ms != [] ==>
      var k := |ms| - 1;
      IsRun(n, r, st, ms[..k]) && ms[k] in After(n, r, st, ms[..k]).flying
  }

  function After(n: nat, r: RowSize, st: Net, ms: seq<Msg>): Net {
    if ms == [] then st else Deliver(n, r, After(n, r, st, ms[..|ms| - 1]), ms[|ms| - 1])
  }

  // ----- What every run keeps

  predicate Reached(st: Net, y: nat) { y in st.forwarded || Msg(y, Column) in st.flying }

  predicate Covered(st: Net, x: nat) { x in st.handled || Msg(x, InRow) in st.flying }

  /** Row mates of the source are served directly. */
  ghost predicate RowServed(n: nat, r: RowSize, s: nat, st: Net) {
    forall x {:trigger Covered(st, x)} :: RowMate(n, r, x, s) ==> Covered(st, x) || Msg(x, Whole) in st.flying
  }

  /** The source's column is reached. */
  ghost predicate ColumnReached(n: nat, r: RowSize, s: nat, st: Net) {
    forall y {:trigger Reached(st, y)} :: ColumnMate(n, r, y, s) ==> Reached(st, y)
  }

  /** The first column is or will be reached through the source's row, unless it is the source's own column. */
  ghost predicate HubWorks(n: nat, r: RowSize, s: nat, st: Net) {
    var h := Hub(r, s);
    Col(r, s) != 0 ==>
      && Msg(h, Column) !in st.flying
      && (h !in st.forwarded ==> Msg(h, Whole) in st.flying)
      && (h in st.forwarded ==> forall y {:trigger Reached(st, y)} :: ColumnMate(n, r, y, h) ==> Reached(st, y))
  }

  /** Whoever forwarded has handled the message, and its row is covered. */
  ghost predicate RowsCovered(n: nat, r: RowSize, st: Net) {
    && (forall y {:trigger y in st.forwarded} :: y in st.forwarded ==> y in st.handled)
    && (forall x, y {:trigger RowMate(n, r, x, y)} :: y in st.forwarded && RowMate(n, r, x, y) ==> Covered(st, x))
  }

  ghost predicate WholeInRow(r: RowSize, s: nat, st: Net) {
    forall x {:trigger Msg(x, Whole)} :: Msg(x, Whole) in st.flying ==> Row(r, x) == Row(r, s)
  }

  ghost predicate Spreading(n: nat, r: RowSize, s: nat, st: Net) {
    && RowServed(n, r, s, st) && ColumnReached(n, r, s, st) && HubWorks(n, r, s, st)
    && RowsCovered(n, r, st) && WholeInRow(r, s, st)
  }

  lemma ColumnSent(n: nat, r: RowSize, x: nat, y: nat)
    ensures Msg(y, Column) in ColumnMsgs(n, r, x) <==> ColumnMate(n, r, y, x)
    ensures Msg(y, InRow) !in ColumnMsgs(n, r, x) && Msg(y, Whole) !in ColumnMsgs(n, r, x)
  {
  }

  lemma RowSent(n: nat, r: RowSize, x: nat, y: nat)
    ensures Msg(y, InRow) in RowMsgs(n, r, x) <==> RowMate(n, r, y, x)
    ensures Msg(y, Column) !in RowMsgs(n, r, x) && Msg(y, Whole) !in RowMsgs(n, r, x)
  {
  }

  lemma StartSpreads(n: nat, r: RowSize, s: nat, whole: set<nat>)
    requires s < n && (Col(r, s) != 0 ==> Hub(r, s) in whole)
    ensures Spreading(n, r, s, Start(n, r, s, whole))
  {
    var st := Start(n, r, s, whole);
    var rows := set y | 0 <= y < n && RowMate(n, r, y, s) :: Msg(y, if y in whole then Whole else InRow);
    forall x | RowMate(n, r, x, s) ensures Covered(st, x) || Msg(x, Whole) in st.flying {
      assert Msg(x, if x in whole then Whole else InRow) in rows;
    }
    forall y | ColumnMate(n, r, y, s) ensures Reached(st, y) {
      ColumnSent(n, r, s, y);
    }
    HubIs(r, s);
    var h := Hub(r, s);
    if Col(r, s) != 0 {
      assert RowMate(n, r, h, s);
      assert Msg(h, Whole) in rows;
      ColumnSent(n, r, s, h);
    }
    forall x | Msg(x, Whole) in st.flying ensures Row(r, x) == Row(r, s) {
      ColumnSent(n, r, s, x);
    }
  }

  /** A delivery takes only the delivered message out of the air and forgets nothing. */
  lemma DeliverKeeps(n: nat, r: RowSize, st: Net, m: Msg, k: Msg)
    requires m in st.flying
    ensures k in st.flying && k != m ==> k in Deliver(n, r, st, m).flying
    ensures st.handled <= Deliver(n, r, st, m).handled && st.forwarded <= Deliver(n, r, st, m).forwarded
    ensures m.dst in Deliver(n, r, st, m).handled
    ensures !m.kind.InRow? ==> m.dst in Deliver(n, r, st, m).forwarded
  {
  }

  /** What is in the air after a delivery was there before or has just been forwarded. */
  lemma DeliverAdds(n: nat, r: RowSize, st: Net, m: Msg, k: Msg)
    requires m in st.flying && k in Deliver(n, r, st, m).flying
    ensures k in st.flying || (m.dst !in st.forwarded && k in Forwards(n, r, m.dst, m.kind))
  {
  }

  lemma CoveredStays(n: nat, r: RowSize, st: Net, m: Msg, x: nat)
    requires m in st.flying && Covered(st, x)
    ensures Covered(Deliver(n, r, st, m), x)
  {
    DeliverKeeps(n, r, st, m, Msg(x, InRow));
  }

  lemma ReachedStays(n: nat, r: RowSize, st: Net, m: Msg, y: nat)
    requires m in st.flying && Reached(st, y)
    ensures Reached(Deliver(n, r, st, m), y)
  {
    DeliverKeeps(n, r, st, m, Msg(y, Column));
  }

  lemma RowServedStays(n: nat, r: RowSize, s: nat, st: Net, m: Msg)
    requires m in st.flying && RowServed(n, r, s, st)
    ensures RowServed(n, r, s, Deliver(n, r, st, m))
  {
    var st' := Deliver(n, r, st, m);
    forall x | RowMate(n, r, x, s) ensures Covered(st', x) || Msg(x, Whole) in st'.flying {
      if Covered(st, x) { CoveredStays(n, r, st, m, x); } else { DeliverKeeps(n, r, st, m, Msg(x, Whole)); }
    }
  }

  lemma ColumnReachedStays(n: nat, r: RowSize, s: nat, st: Net, m: Msg)
    requires m in st.flying && ColumnReached(n, r, s, st)
    ensures ColumnReached(n, r, s, Deliver(n, r, st, m))
  {
    var st' := Deliver(n, r, st, m);
    forall y | ColumnMate(n, r, y, s) ensures Reached(st', y) { ReachedStays(n, r, st, m, y); }
  }

  lemma RowsCoveredStays(n: nat, r: RowSize, st: Net, m: Msg)
    requires m in st.flying && RowsCovered(n, r, st)
    ensures RowsCovered(n, r, Deliver(n, r, st, m))
  {
    var st' := Deliver(n, r, st, m);
    forall x, y | y in st'.forwarded && RowMate(n, r, x, y) ensures Covered(st', x) {
      if y in st.forwarded {
        CoveredStays(n, r, st, m, x);
      } else {
        RowSent(n, r, y, x);
        assert Msg(x, InRow) in Forwards(n, r, m.dst, m.kind);
      }
    }
  }

  /** Only the hub sends column messages down the first column, so none reaches the hub. */
  lemma NoColumnToHub(n: nat, r: RowSize, s: nat, st: Net, m: Msg)
    requires m in st.flying && Col(r, s) != 0 && WholeInRow(r, s, st) && Msg(Hub(r, s), Column) !in st.flying
    ensures Msg(Hub(r, s), Column) !in Deliver(n, r, st, m).flying
  {
    var h := Hub(r, s);
    if Msg(h, Column) in Deliver(n, r, st, m).flying {
      DeliverAdds(n, r, st, m, Msg(h, Column));
      RowSent(n, r, m.dst, h);
      ColumnSent(n, r, m.dst, h);
      HubIs(r, s);
      assert m == Msg(m.dst, m.kind);
      OnlyHub(r, s, m.dst);
    }
  }

  lemma HubWorksStays(n: nat, r: RowSize, s: nat, st: Net, m: Msg)
    requires m in st.flying && HubWorks(n, r, s, st) && WholeInRow(r, s, st)
    ensures HubWorks(n, r, s, Deliver(n, r, st, m))
  {
    var st', h := Deliver(n, r, st, m), Hub(r, s);
    if Col(r, s) != 0 {
      NoColumnToHub(n, r, s, st, m);
      DeliverKeeps(n, r, st, m, Msg(h, Whole));
      forall y | h in st'.forwarded && ColumnMate(n, r, y, h) ensures Reached(st', y) {
        if h in st.forwarded {
          ReachedStays(n, r, st, m, y);
        } else {
          assert m == Msg(h, m.kind);
          ColumnSent(n, r, h, y);
        }
      }
    }
  }

  lemma WholeInRowStays(n: nat, r: RowSize, s: nat, st: Net, m: Msg)
    requires m in st.flying && WholeInRow(r, s, st)
    ensures WholeInRow(r, s, Deliver(n, r, st, m))
  {
    var st' := Deliver(n, r, st, m);
    forall x | Msg(x, Whole) in st'.flying ensures Row(r, x) == Row(r, s) {
      DeliverAdds(n, r, st, m, Msg(x, Whole));
      RowSent(n, r, m.dst, x);
      ColumnSent(n, r, m.dst, x);
    }
  }

  lemma DeliverSpreads(n: nat, r: RowSize, s: nat, st: Net, m: Msg)
    requires m in st.flying && Spreading(n, r, s, st)
    ensures Spreading(n, r, s, Deliver(n, r, st, m))
  {
    RowServedStays(n, r, s, st, m);
    ColumnReachedStays(n, r, s, st, m);
    HubWorksStays(n, r, s, st, m);
    RowsCoveredStays(n, r, st, m);
    WholeInRowStays(n, r, s, st, m);
  }

  lemma {:induction false} RunSpreads(n: nat, r: RowSize, s: nat, st: Net, ms: seq<Msg>)
    requires Spreading(n, r, s, st) && IsRun(n, r, st, ms)
    ensures Spreading(n, r, s, After(n, r, st, ms))
    decreases |ms|
  {
    if ms != [] {
      RunSpreads(n, r, s, st, ms[..|ms| - 1]);
      DeliverSpreads(n, r, s, After(n, r, st, ms[..|ms| - 1]), ms[|ms| - 1]);
    }
  }

  lemma RowOfForwarder(n: nat, r: RowSize, st: Net, x: nat, y: nat)
    requires RowsCovered(n, r, st) && st.flying == multiset{} && y in st.forwarded
    requires x < n && Row(r, x) == Row(r, y)
    ensures x in st.handled
  {
    if x != y { assert RowMate(n, r, x, y) && Covered(st, x); }
  }

  lemma AllHandled(n: nat, r: RowSize, s: nat, st: Net, x: nat)
    requires s < n && Spreading(n, r, s, st) && st.flying == multiset{} && x < n && x != s
    ensures x in st.handled
  {
    if Row(r, x) == Row(r, s) {
      assert Covered(st, x);
    } else {
      CellOf(r, s);
      HubIs(r, x);
      HubIs(r, s);
      var y := Cell(r, Row(r, x), Col(r, s));
      CellAt(r, Row(r, x), Col(r, s));
      if y < n {
        assert Reached(st, y);
        RowOfForwarder(n, r, st, x, y);
      } else {
        assert ColumnMate(n, r, Hub(r, x), Hub(r, s));
        assert Reached(st, Hub(r, x));
        RowOfForwarder(n, r, st, x, Hub(r, x));
      }
    }
  }

  /** Under reliable delivery in any order, every member other than the source has handled the broadcast once
      nothing is in flight, for any group size and row size. */
  lemma BroadcastCovers(n: nat, r: RowSize, s: nat, whole: set<nat>, ms: seq<Msg>, x: nat)
    requires s < n && (Col(r, s) != 0 ==> Hub(r, s) in whole)
    requires IsRun(n, r, Start(n, r, s, whole), ms) && After(n, r, Start(n, r, s, whole), ms).flying == multiset{}
    requires x < n && x != s
    ensures x in After(n, r, Start(n, r, s, whole), ms).handled
  {
    StartSpreads(n, r, s, whole);
    RunSpreads(n, r, s, Start(n, r, s, whole), ms);
    AllHandled(n, r, s, After(n, r, Start(n, r, s, whole), ms), x);
  }

  // ----- Every run ends

  lemma {:induction false} MsgsAtMost(msgs: set<Msg>, kind: Kind, n: nat)
    requires forall m :: m in msgs ==> m.kind == kind && m.dst < n
    ensures |msgs| <= n
    decreases n
  {
    if n == 0 {
      assert msgs == {};
    } else {
      var rest := msgs - {Msg(n - 1, kind)};
      MsgsAtMost(rest, kind, n - 1);
      assert msgs <= rest + {Msg(n - 1, kind)};
    }
  }

  lemma ForwardsAtMost(n: nat, r: RowSize, x: nat, kind: Kind)
    ensures |Forwards(n, r, x, kind)| <= 2 * n
    ensures forall m :: m in Forwards(n, r, x, kind) ==> m.dst < n
  {
    MsgsAtMost(ColumnMsgs(n, r, x), Column, n);
    MsgsAtMost(RowMsgs(n, r, x), InRow, n);
  }

  ghost predicate WithinGroup(n: nat, st: Net) {
    (forall m {:trigger m.dst} :: m in st.flying ==> m.dst < n) && (forall x :: x in st.forwarded ==> x < n)
  }

  lemma {:induction false} MembersAtMost(xs: set<nat>, n: nat)
    requires forall x :: x in xs ==> x < n
    ensures |xs| <= n
    decreases n
  {
    if n == 0 {
      assert xs == {};
    } else {
      MembersAtMost(xs - {n - 1}, n - 1);
      assert xs <= (xs - {n - 1}) + {n - 1};
    }
  }

  /** Room for what `k` members may send. */
  function Room(n: nat, k: nat): nat { k * (2 * n + 1) }

  lemma RoomStep(n: nat, k: nat)
    ensures Room(n, k + 1) == Room(n, k) + 2 * n + 1
  {
  }

  /** Messages in flight, plus room for what the members that have not forwarded yet may send. */
  function Fuel(n: nat, st: Net): nat {
    |st.flying| + Room(n, if |st.forwarded| < n then n - |st.forwarded| else 0)
  }

  lemma QuietDelivery(n: nat, r: RowSize, st: Net, m: Msg)
    requires m in st.flying && (m.kind.InRow? || m.dst in st.forwarded)
    ensures Fuel(n, Deliver(n, r, st, m)) == Fuel(n, st) - 1
  {
    assert |st.flying - multiset{m}| == |st.flying| - 1;
  }

  lemma ForwardingDelivery(n: nat, r: RowSize, st: Net, m: Msg)
    requires m in st.flying && !m.kind.InRow? && m.dst !in st.forwarded && m.dst < n
    requires forall x :: x in st.forwarded ==> x < n
    ensures Fuel(n, Deliver(n, r, st, m)) < Fuel(n, st)
  {
    ForwardsAtMost(n, r, m.dst, m.kind);
    MembersAtMost(st.forwarded + {m.dst}, n);
    assert |st.forwarded + {m.dst}| == |st.forwarded| + 1;
    RoomStep(n, n - |st.forwarded| - 1);
    var sent := Forwards(n, r, m.dst, m.kind);
    assert |st.flying - multiset{m} + multiset(sent)| == |st.flying| - 1 + |sent|;
  }

  lemma StaysWithin(n: nat, r: RowSize, st: Net, m: Msg)
    requires m in st.flying && WithinGroup(n, st)
    ensures WithinGroup(n, Deliver(n, r, st, m))
  {
    ForwardsAtMost(n, r, m.dst, m.kind);
    assert m.dst < n;
    forall k | k in Deliver(n, r, st, m).flying ensures k.dst < n { DeliverAdds(n, r, st, m, k); }
  }

  lemma FuelFalls(n: nat, r: RowSize, st: Net, m: Msg)
    requires m in st.flying && WithinGroup(n, st)
    ensures WithinGroup(n, Deliver(n, r, st, m)) && Fuel(n, Deliver(n, r, st, m)) < Fuel(n, st)
  {
    StaysWithin(n, r, st, m);
    assert m.dst < n;
    if m.kind.InRow? || m.dst in st.forwarded {
      QuietDelivery(n, r, st, m);
    } else {
      ForwardingDelivery(n, r, st, m);
    }
  }

  /** However messages are delivered, a run cannot be longer than the fuel it starts with. */
  lemma {:induction false} RunsEnd(n: nat, r: RowSize, st: Net, ms: seq<Msg>)
    requires WithinGroup(n, st) && IsRun(n, r, st, ms)
    ensures WithinGroup(n, After(n, r, st, ms)) && |ms| + Fuel(n, After(n, r, st, ms)) <= Fuel(n, st)
    decreases |ms|
  {
    if ms != [] {
      RunsEnd(n, r, st, ms[..|ms| - 1]);
      FuelFalls(n, r, After(n, r, st, ms[..|ms| - 1]), ms[|ms| - 1]);
    }
  }

  lemma StartWithin(n: nat, r: RowSize, s: nat, whole: set<nat>)
    ensures WithinGroup(n, Start(n, r, s, whole))
  {
  }

  lemma CanGoOn(n: nat, r: RowSize, st: Net, ms: seq<Msg>, m: Msg)
    requires IsRun(n, r, st, ms) && m in After(n, r, st, ms).flying
    ensures IsRun(n, r, st, ms + [m])
  {
    assert (ms + [m])[..|ms|] == ms;
  }

  /** A broadcast always ends, and then it has reached everyone: no run from the source's messages is longer than the
      fuel they carry, and a run that nothing can extend has been handled by every other member. */
  lemma BroadcastCompletes(n: nat, r: RowSize, s: nat, whole: set<nat>, ms: seq<Msg>)
    requires s < n && (Col(r, s) != 0 ==> Hub(r, s) in whole) && IsRun(n, r, Start(n, r, s, whole), ms)
    ensures |ms| <= Fuel(n, Start(n, r, s, whole))
    ensures (forall m :: !IsRun(n, r, Start(n, r, s, whole), ms + [m])) ==>
              forall x :: 0 <= x < n && x != s ==> x in After(n, r, Start(n, r, s, whole), ms).handled
  {
    var st := Start(n, r, s, whole);
    StartWithin(n, r, s, whole);
    RunsEnd(n, r, st, ms);
    if forall m :: !IsRun(n, r, st, ms + [m]) {
      var flying := After(n, r, st, ms).flying;
      if flying != multiset{} {
        var m :| m in flying;
        CanGoOn(n, r, st, ms, m);
      }
      forall x: nat | x < n && x != s ensures x in After(n, r, st, ms).handled {
        BroadcastCovers(n, r, s, whole, ms, x);
      }
    }
  }

  // ----- The members' own computations

  predicate Lower(x: nat, y: nat) { x < y }

  predicate Ascending(xs: seq<nat>) {
    forall i, j {:trigger Lower(xs[i], xs[j])} :: 0 <= i < j < |xs| ==> Lower(xs[i], xs[j])
  }

  lemma AppendAscending(xs: seq<nat>, y: nat)
    requires Ascending(xs) && forall x :: x in xs ==> x < y
    ensures Ascending(xs + [y])
  {
    var next := xs + [y];
    forall i, j | 0 <= i < j < |next| ensures Lower(next[i], next[j]) {
      if j < |xs| { assert Lower(xs[i], xs[j]); } else { assert xs[i] in xs; }
    }
  }

  /** The row mates in the columns below `i` have been collected. */
  ghost predicate RowCollected(n: nat, r: RowSize, cur: nat, i: nat, nodes: seq<nat>) {
    && Ascending(nodes)
    && (forall y :: y in nodes <==> RowMate(n, r, y, cur) && Col(r, y) < i)
    && (Col(r, cur) != 0 && i > 0 ==> nodes != [] && nodes[0] == Hub(r, cur))
  }

  lemma ColumnOrder(r: RowSize, x: nat, y: nat)
    requires Row(r, x) == Row(r, y) && Col(r, x) < Col(r, y)
    ensures x < y
  {
    CellOf(r, x);
    CellOf(r, y);
  }

  lemma RowStep(n: nat, r: RowSize, cur: nat, i: nat, nodes: seq<nat>, index: nat)
    requires cur < n && i < r && RowCollected(n, r, cur, i, nodes) && index == Cell(r, Row(r, cur), i) < n
    ensures RowCollected(n, r, cur, i + 1, if index != cur then nodes + [index] else nodes)
  {
    CellAt(r, Row(r, cur), i);
    CellOf(r, cur);
    forall y | Row(r, y) == Row(r, cur) && Col(r, y) == i ensures y == index { CellOf(r, y); }
    if index != cur {
      forall y | y in nodes ensures y < index { ColumnOrder(r, y, index); }
      AppendAscending(nodes, index);
    }
    HubIs(r, cur);
    assert nodes != [] ==> nodes[0] in nodes;
  }

  /** The members of a row, collected by stepping through the grid. */
  method RowNodes(n: nat, r: RowSize, cur: nat) returns (nodes: seq<nat>)
    requires cur < n
    ensures Ascending(nodes) && forall y :: y in nodes <==> RowMate(n, r, y, cur)
    ensures Col(r, cur) != 0 ==> nodes != [] && nodes[0] == Hub(r, cur)
  {
    nodes := [];
    HubIs(r, cur);
    var i := 0;
    while i < r
      invariant 0 <= i <= r && RowCollected(n, r, cur, i, nodes)
    {
      var index := Cell(r, Row(r, cur), i);
      if index >= n {
        forall y | RowMate(n, r, y, cur) ensures Col(r, y) < i { CellOf(r, y); }
        return;
      }
      RowStep(n, r, cur, i, nodes, index);
      if index != cur { nodes := nodes + [index]; }
      i := i + 1;
    }
    forall y ensures Col(r, y) < r { CellOf(r, y); }
  }

  function RowCount(n: nat, r: RowSize): nat { (n + r - 1) / r }

  lemma RowBelowCount(n: nat, r: RowSize, y: nat)
    requires y < n
    ensures Row(r, y) < RowCount(n, r)
  {
    var c, q := RowCount(n, r), Row(r, y);
    CellOf(r, y);
    assert n + r - 1 == c * r + (n + r - 1) % r;
    if c <= q { Times(c, q, r); }
  }

  /** The column mates in the rows below `i` have been collected. */
  ghost predicate ColumnCollected(n: nat, r: RowSize, cur: nat, i: nat, nodes: seq<nat>) {
    Ascending(nodes) && forall y :: y in nodes <==> ColumnMate(n, r, y, cur) && Row(r, y) < i
  }

  lemma RowOrder(r: RowSize, x: nat, y: nat)
    requires Col(r, x) == Col(r, y) && Row(r, x) < Row(r, y)
    ensures x < y
  {
    CellOf(r, x);
    CellOf(r, y);
    Times(Row(r, x), Row(r, y) - 1, r);
    Times(Row(r, y) - 1, Row(r, y) - 1, r);
  }

  lemma ColumnStep(n: nat, r: RowSize, cur: nat, i: nat, nodes: seq<nat>, index: nat)
    requires cur < n && ColumnCollected(n, r, cur, i, nodes) && index == Cell(r, i, Col(r, cur)) < n
    ensures ColumnCollected(n, r, cur, i + 1, if index != cur then nodes + [index] else nodes)
  {
    CellOf(r, cur);
    CellAt(r, i, Col(r, cur));
    forall y | Col(r, y) == Col(r, cur) && Row(r, y) == i ensures y == index { CellOf(r, y); }
    if index != cur {
      forall y | y in nodes ensures y < index { RowOrder(r, y, index); }
      AppendAscending(nodes, index);
    }
  }

  method ColumnNodes(n: nat, r: RowSize, cur: nat) returns (nodes: seq<nat>)
    requires cur < n
    ensures Ascending(nodes) && forall y :: y in nodes <==> ColumnMate(n, r, y, cur)
  {
    nodes := [];
    CellOf(r, cur);
    var i := 0;
    while i < RowCount(n, r)
      invariant 0 <= i && ColumnCollected(n, r, cur, i, nodes)
      decreases RowCount(n, r) - i
    {
      var index := Cell(r, i, Col(r, cur));
      if index >= n {
        CellAt(r, i, Col(r, cur));
        forall y | ColumnMate(n, r, y, cur) ensures Row(r, y) < i {
          CellOf(r, y);
          if i <= Row(r, y) { Times(i, Row(r, y), r); }
        }
        return;
      }
      ColumnStep(n, r, cur, i, nodes, index);
      if index != cur { nodes := nodes + [index]; }
      i := i + 1;
    }
    forall y | ColumnMate(n, r, y, cur) ensures Row(r, y) < i { RowBelowCount(n, r, y); }
  }

  /** One message to each of the nodes. */
  function ToNodes(nodes: seq<nat>, kind: Kind): seq<Msg> {
    seq(|nodes|, i requires 0 <= i < |nodes| => Msg(nodes[i], kind))
  }

  predicate DistinctDst(msgs: seq<Msg>) {
    forall i, j {:trigger Lower(msgs[i].dst, msgs[j].dst)} :: 0 <= i < j < |msgs| ==> Lower(msgs[i].dst, msgs[j].dst)
  }

  lemma {:induction false} SeqAsSet(msgs: seq<Msg>, all: set<Msg>)
    requires DistinctDst(msgs) && forall m :: m in all <==> m in msgs
    ensures multiset(msgs) == multiset(all)
    decreases |msgs|
  {
    if msgs == [] {
      assert all == {};
    } else {
      var k := |msgs| - 1;
      var front := msgs[..k];
      assert msgs == front + [msgs[k]];
      forall i, j | 0 <= i < j < k ensures Lower(front[i].dst, front[j].dst) { assert Lower(msgs[i].dst, msgs[j].dst); }
      forall i | 0 <= i < k ensures front[i] != msgs[k] { assert Lower(msgs[i].dst, msgs[k].dst); }
      SeqAsSet(front, all - {msgs[k]});
    }
  }

  lemma ColumnMsgsSent(n: nat, r: RowSize, s: nat, nodes: seq<nat>)
    requires Ascending(nodes) && forall y :: y in nodes <==> ColumnMate(n, r, y, s)
    ensures multiset(ToNodes(nodes, Column)) == multiset(ColumnMsgs(n, r, s))
  {
    var msgs := ToNodes(nodes, Column);
    forall i, j | 0 <= i < j < |msgs| ensures Lower(msgs[i].dst, msgs[j].dst) { assert Lower(nodes[i], nodes[j]); }
    forall m | m in ColumnMsgs(n, r, s) ensures m in msgs {
      var i :| 0 <= i < |nodes| && nodes[i] == m.dst;
      assert msgs[i] == m;
    }
    forall m | m in msgs ensures m in ColumnMsgs(n, r, s) {
      assert m.dst in nodes;
      ColumnSent(n, r, s, m.dst);
    }
    SeqAsSet(msgs, ColumnMsgs(n, r, s));
  }

  lemma RowMsgsForwarded(n: nat, r: RowSize, x: nat, nodes: seq<nat>)
    requires Ascending(nodes) && forall y :: y in nodes <==> RowMate(n, r, y, x)
    ensures multiset(ToNodes(nodes, InRow)) == multiset(RowMsgs(n, r, x))
  {
    var msgs := ToNodes(nodes, InRow);
    forall i, j | 0 <= i < j < |msgs| ensures Lower(msgs[i].dst, msgs[j].dst) { assert Lower(nodes[i], nodes[j]); }
    forall m | m in RowMsgs(n, r, x) ensures m in msgs {
      var i :| 0 <= i < |nodes| && nodes[i] == m.dst;
      assert msgs[i] == m;
    }
    forall m | m in msgs ensures m in RowMsgs(n, r, x) { assert m.dst in nodes; }
    SeqAsSet(msgs, RowMsgs(n, r, x));
  }

  /** Row and column messages differ, so sending both sends each once. */
  lemma BothWays(n: nat, r: RowSize, x: nat)
    ensures multiset(ColumnMsgs(n, r, x)) + multiset(RowMsgs(n, r, x)) == multiset(ColumnMsgs(n, r, x) + RowMsgs(n, r, x))
  {
    assert ColumnMsgs(n, r, x) !! RowMsgs(n, r, x);
  }

  /** The row messages of the source: positions in `chosen` get the message that is forwarded both ways. */
  lemma RowMsgsSent(n: nat, r: RowSize, s: nat, nodes: seq<nat>, chosen: set<nat>, msgs: seq<Msg>, whole: set<nat>)
    requires Ascending(nodes) && forall y :: y in nodes <==> RowMate(n, r, y, s)
    requires |msgs| == |nodes| && forall i :: 0 <= i < |nodes| ==> msgs[i] == Msg(nodes[i], if i in chosen then Whole else InRow)
    requires whole == set i | 0 <= i < |nodes| && i in chosen :: nodes[i]
    ensures multiset(msgs) == multiset(set y | 0 <= y < n && RowMate(n, r, y, s) :: Msg(y, if y in whole then Whole else InRow))
  {
    var all := set y | 0 <= y < n && RowMate(n, r, y, s) :: Msg(y, if y in whole then Whole else InRow);
    forall i, j | 0 <= i < j < |msgs| ensures Lower(msgs[i].dst, msgs[j].dst) { assert Lower(nodes[i], nodes[j]); }
    forall i | 0 <= i < |nodes| ensures (nodes[i] in whole <==> i in chosen) && nodes[i] in nodes {
      if nodes[i] in whole {
        var j :| 0 <= j < |nodes| && j in chosen && nodes[j] == nodes[i];
        assert j < i ==> Lower(nodes[j], nodes[i]);
        assert i < j ==> Lower(nodes[i], nodes[j]);
      }
    }
    forall m | m in all ensures m in msgs {
      var i :| 0 <= i < |nodes| && nodes[i] == m.dst;
      assert msgs[i] == m;
    }
    SeqAsSet(msgs, all);
  }

  /** The source's sends. The member in the first column of its row is always among those that forward both ways;
      the others are picked at random. */
  method BroadcastSends(n: nat, r: RowSize, s: nat, picked: set<nat>) returns (sent: seq<Msg>, whole: set<nat>)
    requires s < n
    ensures multiset(sent) == Sent(n, r, s, whole) && (Col(r, s) != 0 ==> Hub(r, s) in whole)
  {
    var columnNodes := ColumnNodes(n, r, s);
    var rowNodes := RowNodes(n, r, s);
    sent := ToNodes(columnNodes, Column);
    ColumnMsgsSent(n, r, s, columnNodes);
    var chosen := if Col(r, s) != 0 then picked + {0} else picked;
    var groupMsgs, rowMsgs: seq<Msg>, all: seq<Msg> := [], [], [];
    var i := 0;
    while i < |rowNodes|
      invariant 0 <= i == |all| <= |rowNodes| && multiset(groupMsgs) + multiset(rowMsgs) == multiset(all)
      invariant forall k :: 0 <= k < i ==> all[k] == Msg(rowNodes[k], if k in chosen then Whole else InRow)
    {
      if i in chosen {
        groupMsgs := groupMsgs + [Msg(rowNodes[i], Whole)];
        all := all + [Msg(rowNodes[i], Whole)];
      } else {
        rowMsgs := rowMsgs + [Msg(rowNodes[i], InRow)];
        all := all + [Msg(rowNodes[i], InRow)];
      }
      i := i + 1;
    }
    whole := set k | 0 <= k < |rowNodes| && k in chosen :: rowNodes[k];
    RowMsgsSent(n, r, s, rowNodes, chosen, all, whole);
    sent := sent + groupMsgs + rowMsgs;
    if Col(r, s) != 0 { assert rowNodes[0] in whole; }
  }

  class Member {
    const n: nat
    const r: RowSize
    const id: nat
    var handled: bool
    var forwarded: bool

    constructor (n: nat, r: RowSize, id: nat)
      ensures this.n == n && this.r == r && this.id == id && !handled && !forwarded
    {
      this.n, this.r, this.id := n, r, id;
      handled, forwarded := false, false;
    }

    /** Receives a message: handles it the first time, and forwards it the first time it is not a row message. */
    method HandleData(kind: Kind) returns (sent: seq<Msg>)
      requires id < n
      modifies this
      ensures handled && forwarded == (old(forwarded) || !kind.InRow?)
      ensures multiset(sent) == if old(forwarded) then multiset{} else multiset(Forwards(n, r, id, kind))
    {
      handled := true;
      sent := [];
      if kind.InRow? { return; }
      if forwarded { return; }
      forwarded := true;
      var rowNodes := RowNodes(n, r, id);
      var columnNodes := ColumnNodes(n, r, id);
      sent := ToNodes(rowNodes, InRow);
      RowMsgsForwarded(n, r, id, rowNodes);
      if kind.Whole? {
        ColumnMsgsSent(n, r, id, columnNodes);
        sent := ToNodes(columnNodes, Column) + sent;
        BothWays(n, r, id);
      }
    }
  }
}
