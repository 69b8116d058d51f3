/** Whole sessions of one application: a driver that keeps its data window, an application that
    answers indications, and the pool between them.

    A session is followed together with a ledger of the data indications the application has not
    answered, by the number it was told for each. */
module PoolRuns {
  import opened BufferPool

  datatype Event =
    | DataInd(handle: nat, ncci: nat)  // a data indication is read and passed on
    | OtherMessage                     // another message is read, or none, or reading fails
    | DisconnectInd(plci: nat)         // the indication that a physical connection is gone is read
    | DataResp(slot: nat)              // the application answers the indication numbered `slot`
    | DisconnectB3Resp(ncci: nat)      // the application confirms the end of a logical connection

  datatype Session = Session(pool: Pool, open: map<nat, Lent>)

  function Without(open: map<nat, Lent>, sel: Selector): map<nat, Lent> {
    map i | i in open && !sel.Picks(open[i]) :: open[i]
  }

  predicate Reads(e: Event) { e.DataInd? || e.OtherMessage? || e.DisconnectInd? }

  /** One event, for a pool of `n` buffers.  Reading needs a free buffer; without one nothing is
      read. */
  function Step(s: Session, e: Event, n: nat): Session {
    if Reads(e) && s.pool.free == [] then s
    else match e
      case DataInd(handle, ncci) =>
        var slot := s.pool.free[0];
        Session(Save(Take(s.pool), slot, handle, ncci), s.open[slot := Data(handle, ncci)])
      case OtherMessage =>
        Session(GiveBack(Take(s.pool), s.pool.free[0]), s.open)
      case DisconnectInd(plci) =>
        Session(Cleanup(GiveBack(Take(s.pool), s.pool.free[0]), ByPlci(plci), n), Without(s.open, ByPlci(plci)))
      case DataResp(slot) =>
        Session(GiveBack(s.pool, slot), s.open - {slot})
      case DisconnectB3Resp(ncci) =>
        Session(Cleanup(s.pool, ByNcci(ncci), n), Without(s.open, ByNcci(ncci)))
  }

  /** The unanswered indications of one logical connection. */
  function Of(open: map<nat, Lent>, ncci: nat): set<nat> {
    set i | i in open && open[i].Data? && open[i].ncci == ncci
  }

  /** The logical connections with unanswered indications. */
  function Live(open: map<nat, Lent>): set<nat> {
    set i | i in open && open[i].Data? :: open[i].ncci
  }

  /** The driver keeps at most `b` unanswered indications on each of at most `c` connections; the
      application answers only what is unanswered. */
  predicate Legal(s: Session, e: Event, b: nat, c: nat) {
    match e
    case DataInd(_, ncci) => ncci != 0 && |Of(s.open, ncci)| < b && |Live(s.open) + {ncci}| <= c
    case DataResp(slot) => slot in s.open
    case _ => true
  }

  function Start(n: nat): Session { Session(Pool(seq(n, i => i), map[]), map[]) }

  predicate LegalRun(s: Session, es: seq<Event>, n: nat, b: nat, c: nat)
    decreases |es|
  {
    es == [] || (Legal(s, es[0], b, c) && LegalRun(Step(s, es[0], n), es[1..], n, b, c))
  }

  function Run(s: Session, es: seq<Event>, n: nat): Session
    decreases |es|
  {
    if es == [] then s else Run(Step(s, es[0], n), es[1..], n)
  }

  // ---- the invariant ----

  /** The pool lends exactly the unanswered indications, each under its own number with the
      driver's handle for it, and every other buffer is free, once. */
  ghost predicate Consistent(s: Session, n: nat) {
    && s.pool.busy == s.open
    && (forall i :: i in s.open ==> i < n && s.open[i].Data? && s.open[i].ncci != 0)
    && NoDup(s.pool.free)
    && (forall k :: 0 <= k < |s.pool.free| ==> s.pool.free[k] < n && s.pool.free[k] !in s.open)
    && (forall i :: 0 <= i < n ==> i in s.pool.free || i in s.open)
  }

  ghost predicate WindowKept(open: map<nat, Lent>, b: nat, c: nat) {
    && (forall ncci :: |Of(open, ncci)| <= b)
    && |Live(open)| <= c
  }

  lemma {:induction false} SubsetSize<T>(a: set<T>, b: set<T>)
    requires a <= b
    ensures |a| <= |b|
  {
    if a != {} {
      var x :| x in a;
      SubsetSize(a - {x}, b - {x});
    }
  }

  /** Fewer unanswered indications keep the window. */
  lemma WindowShrinks(open: map<nat, Lent>, less: map<nat, Lent>, b: nat, c: nat)
    requires WindowKept(open, b, c)
    requires forall i :: i in less ==> i in open && less[i] == open[i]
    ensures WindowKept(less, b, c)
  {
    forall ncci
      ensures |Of(less, ncci)| <= b
    {
      SubsetSize(Of(less, ncci), Of(open, ncci));
    }
    SubsetSize(Live(less), Live(open));
  }

  lemma OfGrown(open: map<nat, Lent>, slot: nat, handle: nat, ncci: nat, x: nat)
    requires slot !in open
    ensures Of(open[slot := Data(handle, ncci)], x) == if x == ncci then Of(open, x) + {slot} else Of(open, x)
  {
  }

  lemma LiveGrown(open: map<nat, Lent>, slot: nat, handle: nat, ncci: nat)
    requires slot !in open
    ensures Live(open[slot := Data(handle, ncci)]) <= Live(open) + {ncci}
  {
  }

  lemma WindowGrows(open: map<nat, Lent>, slot: nat, handle: nat, ncci: nat, b: nat, c: nat)
    requires WindowKept(open, b, c) && slot !in open
    requires |Of(open, ncci)| < b && |Live(open) + {ncci}| <= c
    ensures WindowKept(open[slot := Data(handle, ncci)], b, c)
  {
    hide Of, Live;
    var more := open[slot := Data(handle, ncci)];
    forall x
      ensures |Of(more, x)| <= b
    {
      OfGrown(open, slot, handle, ncci, x);
    }
    LiveGrown(open, slot, handle, ncci);
    SubsetSize(Live(more), Live(open) + {ncci});
  }

  function OtherThan(open: map<nat, Lent>, x: nat): map<nat, Lent> {
    map j | j in open && !(open[j].Data? && open[j].ncci == x) :: open[j]
  }

  lemma SplitOff(open: map<nat, Lent>, x: nat)
    ensures |open| == |OtherThan(open, x)| + |Of(open, x)|
    ensures Live(OtherThan(open, x)) <= Live(open) - {x}
    ensures forall i :: i in OtherThan(open, x) ==> i in open && OtherThan(open, x)[i] == open[i]
  {
    assert open.Keys == OtherThan(open, x).Keys + Of(open, x);
  }

  /** A kept window bounds the number of unanswered indications. */
  lemma {:induction false} WindowBounds(open: map<nat, Lent>, b: nat, c: nat)
    requires WindowKept(open, b, c) && forall i :: i in open ==> open[i].Data?
    ensures |open| <= c * b
    decreases |open|
  {
    hide Of, Live, OtherThan;
    if open != map[] {
      var i :| i in open;
      var x := open[i].ncci;
      var rest := OtherThan(open, x);
      SplitOff(open, x);
      Among(open, i);
      WindowShrinks(open, rest, b, c);
      SubsetSize(Live(rest), Live(open) - {x});
      WindowBounds(rest, b, c - 1);
      OneConnectionMore(|rest|, |Of(open, x)|, b, c);
    } else {
      NoConnection(b, c);
    }
  }

  lemma Among(open: map<nat, Lent>, i: nat)
    requires i in open && open[i].Data?
    ensures i in Of(open, open[i].ncci) && open[i].ncci in Live(open)
  {
  }

  lemma NoConnection(b: nat, c: nat)
    ensures 0 <= c * b
  {
  }

  lemma OneConnectionMore(rest: nat, of: nat, b: nat, c: nat)
    requires c > 0 && rest <= (c - 1) * b && of <= b
    ensures rest + of <= c * b
  {
    assert (c - 1) * b + b == c * b;
  }

  /** If every number below `n` is free or lent, the free ones and the lent ones are at least `n`. */
  lemma {:induction false} Covering(free: seq<nat>, lent: set<nat>, n: nat)
    requires forall i :: 0 <= i < n ==> i in free || i in lent
    ensures n <= |free| + |lent|
    decreases n
  {
    if n > 0 {
      var m := n - 1;
      assert m in free || m in lent;
      if m in lent {
        Covering(free, lent - {m}, m);
      } else {
        var k :| 0 <= k < |free| && free[k] == m;
        var rest := free[..k] + free[k + 1..];
        forall i | 0 <= i < m
          ensures i in rest || i in lent
        {
          if i in free {
            var j :| 0 <= j < |free| && free[j] == i;
            assert rest[if j < k then j else j - 1] == i;
          }
        }
        Covering(rest, lent, m);
      }
    }
  }

  /** With the pool's size, a kept window leaves more than one buffer free per connection. */
  lemma EnoughFree(s: Session, n: nat, b: nat, c: nat)
    requires Consistent(s, n) && WindowKept(s.open, b, c) && n == 2 + c * (b + 1)
    ensures |s.pool.free| >= 2 + c
  {
    WindowBounds(s.open, b, c);
    Covering(s.pool.free, s.open.Keys, n);
    assert c * (b + 1) == c * b + c;
  }

  lemma {:induction false} PickedNoDup(busy: map<nat, Lent>, sel: Selector, n: nat)
    ensures NoDup(Picked(busy, sel, n))
  {
    if n > 0 {
      PickedNoDup(busy, sel, n - 1);
    }
  }

  lemma CleanupConsistent(s: Session, sel: Selector, n: nat)
    requires Consistent(s, n)
    ensures Consistent(Session(Cleanup(s.pool, sel, n), Without(s.open, sel)), n)
  {
    var picked := Picked(s.pool.busy, sel, n);
    PickedNoDup(s.pool.busy, sel, n);
    var free := s.pool.free + picked;
    forall i, j | 0 <= i < j < |free|
      ensures free[i] != free[j]
    {
      if i < |s.pool.free| <= j {
        assert free[j] == picked[j - |s.pool.free|] && free[j] in picked;
      }
    }
    forall k | 0 <= k < |free|
      ensures free[k] < n && free[k] !in Without(s.open, sel)
    {
      if k >= |s.pool.free| {
        assert free[k] == picked[k - |s.pool.free|] && free[k] in picked;
      }
    }
    forall i | 0 <= i < n
      ensures i in free || i in Without(s.open, sel)
    {
      assert i in s.pool.free || i in picked || i in Without(s.open, sel);
    }
  }

  lemma TakeAndGiveBack(s: Session, n: nat)
    requires Consistent(s, n) && s.pool.free != []
    ensures Consistent(Session(GiveBack(Take(s.pool), s.pool.free[0]), s.open), n)
  {
    var slot := s.pool.free[0];
    var free := s.pool.free[1..] + [slot];
    assert GiveBack(Take(s.pool), slot) == Pool(free, s.open);
    Rotated(s.pool.free, free);
  }

  lemma Rotated(free: seq<nat>, after: seq<nat>)
    requires NoDup(free) && free != [] && after == free[1..] + [free[0]]
    ensures NoDup(after)
    ensures forall k :: 0 <= k < |after| ==> after[k] in free
    ensures forall x :: x in free ==> x in after
  {
    forall x | x in free
      ensures x in after
    {
      var k :| 0 <= k < |free| && free[k] == x;
      assert after[if k == 0 then |free| - 1 else k - 1] == x;
    }
  }

  lemma DeliverConsistent(s: Session, handle: nat, ncci: nat, n: nat)
    requires Consistent(s, n) && s.pool.free != [] && ncci != 0
    ensures s.pool.free[0] !in s.open
    ensures Consistent(Step(s, DataInd(handle, ncci), n), n)
  {
    var slot := s.pool.free[0];
    var t := Step(s, DataInd(handle, ncci), n);
    assert t.pool.free == s.pool.free[1..];
    forall i | 0 <= i < n
      ensures i in t.pool.free || i in t.open
    {
      if i in s.pool.free && i != slot {
        var k :| 0 <= k < |s.pool.free| && s.pool.free[k] == i;
        assert t.pool.free[k - 1] == i;
      }
    }
  }

  lemma AnswerConsistent(s: Session, slot: nat, n: nat)
    requires Consistent(s, n) && slot in s.open
    ensures Consistent(Step(s, DataResp(slot), n), n)
  {
    var t := Step(s, DataResp(slot), n);
    assert t.pool.free[|s.pool.free|] == slot;
    forall i | 0 <= i < n
      ensures i in t.pool.free || i in t.open
    {
      assert i in s.pool.free || i in s.open;
    }
  }

  /** One legal event keeps the invariant. */
  lemma StepKeepsInvariant(s: Session, e: Event, n: nat, b: nat, c: nat)
    requires Consistent(s, n) && WindowKept(s.open, b, c) && n == 2 + c * (b + 1) && Legal(s, e, b, c)
    ensures Consistent(Step(s, e, n), n) && WindowKept(Step(s, e, n).open, b, c)
  {
    hide Consistent, WindowKept, Cleanup, Take, GiveBack, Save, Of, Live;
    EnoughFree(s, n, b, c);
    match e
    case DataInd(handle, ncci) =>
      DeliverConsistent(s, handle, ncci, n);
      WindowGrows(s.open, s.pool.free[0], handle, ncci, b, c);
    case OtherMessage =>
      TakeAndGiveBack(s, n);
    case DisconnectInd(plci) =>
      TakeAndGiveBack(s, n);
      CleanupConsistent(Session(GiveBack(Take(s.pool), s.pool.free[0]), s.open), ByPlci(plci), n);
      WindowShrinks(s.open, Without(s.open, ByPlci(plci)), b, c);
    case DataResp(slot) =>
      AnswerConsistent(s, slot, n);
      WindowShrinks(s.open, s.open - {slot}, b, c);
    case DisconnectB3Resp(ncci) =>
      CleanupConsistent(s, ByNcci(ncci), n);
      WindowShrinks(s.open, Without(s.open, ByNcci(ncci)), b, c);
  }

  lemma StartConsistent(n: nat, b: nat, c: nat)
    ensures Consistent(Start(n), n) && WindowKept(Start(n).open, b, c)
  {
    var s := Start(n);
    forall i | 0 <= i < n
      ensures i in s.pool.free
    {
      assert s.pool.free[i] == i;
    }
  }

  /** In every session that keeps the window, at every moment, more than one buffer per connection
      is free, and the pool holds the ledger. */
  lemma {:induction false} SessionSafe(s: Session, es: seq<Event>, n: nat, b: nat, c: nat)
    requires Consistent(s, n) && WindowKept(s.open, b, c) && n == 2 + c * (b + 1)
    requires LegalRun(s, es, n, b, c)
    ensures var t := Run(s, es, n);
            Consistent(t, n) && WindowKept(t.open, b, c) && |t.pool.free| >= 2 + c
    decreases |es|
  {
    hide Consistent, WindowKept, Legal, Step;
    if es == [] {
      EnoughFree(s, n, b, c);
    } else {
      StepKeepsInvariant(s, es[0], n, b, c);
      SessionSafe(Step(s, es[0], n), es[1..], n, b, c);
    }
  }

  /** `s` is a moment in a session with a pool of `n` buffers, the size the library gives it, in
      which the driver keeps a window of `b` indications on each of `c` connections. */
  ghost predicate Reachable(s: Session, n: nat, b: nat, c: nat) {
    n == 2 + c * (b + 1) && exists es :: LegalRun(Start(n), es, n, b, c) && s == Run(Start(n), es, n)
  }

  /** At every moment of every such session more than one buffer per connection is free, and the
      pool lends exactly what the ledger says. */
  lemma ReachableSafe(s: Session, n: nat, b: nat, c: nat)
    requires Reachable(s, n, b, c)
    ensures |s.pool.free| >= 2 + c && Consistent(s, n) && WindowKept(s.open, b, c)
  {
    hide Consistent, WindowKept;
    var es :| LegalRun(Start(n), es, n, b, c) && s == Run(Start(n), es, n);
    StartConsistent(n, b, c);
    SessionSafe(Start(n), es, n, b, c);
  }

  /** The driver gets back its own handle for the indication that is answered, and a new
      indication is never given the number of one that is still unanswered. */
  lemma HandlesRestored(s: Session, e: Event, n: nat, b: nat, c: nat)
    requires Reachable(s, n, b, c) && Legal(s, e, b, c)
    ensures match e
            case DataResp(slot) => slot in s.pool.busy && s.pool.busy[slot] == s.open[slot] && s.open[slot].Data?
            case DataInd(handle, ncci) =>
              && s.pool.free != [] && s.pool.free[0] !in s.open
              && Step(s, e, n).open == s.open[s.pool.free[0] := Data(handle, ncci)]
            case _ => true
  {
    ReachableSafe(s, n, b, c);
  }

  // ---- messages left in buffers that are already free ----

  function ReadCount(es: seq<Event>): nat {
    if es == [] then 0 else (if Reads(es[0]) then 1 else 0) + ReadCount(es[1..])
  }

  /** The buffers that are written to in a run. */
  function Overwritten(s: Session, es: seq<Event>, n: nat): set<nat>
    decreases |es|
  {
    if es == [] then {}
    else
      var written := if Reads(es[0]) && s.pool.free != [] then {s.pool.free[0]} else {};
      written + Overwritten(Step(s, es[0], n), es[1..], n)
  }

  /** A buffer at place `k` of the free list moves up one place for each read and no faster. */
  lemma PlaceAfterStep(s: Session, e: Event, n: nat, k: nat)
    requires k < |s.pool.free| && (Reads(e) ==> 0 < k)
    ensures var f := Step(s, e, n).pool.free; var k' := if Reads(e) then k - 1 else k;
            k' < |f| && f[k'] == s.pool.free[k]
  {
  }

  lemma FirstDiffers(s: Session, n: nat, k: nat)
    requires Consistent(s, n) && 0 < k < |s.pool.free|
    ensures s.pool.free[0] != s.pool.free[k]
  {
  }

  /** In a session that keeps the window, the buffer at place `k` of the free list is not written to
      by the next `k` reads. */
  lemma {:induction false} StaysFree(s: Session, es: seq<Event>, n: nat, b: nat, c: nat, k: nat)
    requires Consistent(s, n) && WindowKept(s.open, b, c) && n == 2 + c * (b + 1)
    requires LegalRun(s, es, n, b, c)
    requires k < |s.pool.free| && ReadCount(es) <= k
    ensures s.pool.free[k] !in Overwritten(s, es, n)
    decreases |es|
  {
    hide Step, Consistent, WindowKept, Legal, Reads;
    if es != [] {
      var e := es[0];
      PlaceAfterStep(s, e, n, k);
      StepKeepsInvariant(s, e, n, b, c);
      if Reads(e) {
        FirstDiffers(s, n, k);
        StaysFree(Step(s, e, n), es[1..], n, b, c, k - 1);
      } else {
        StaysFree(Step(s, e, n), es[1..], n, b, c, k);
      }
    }
  }

  /** Events that read a message and leave it in a buffer that is already free again. */
  predicate LeavesMessage(e: Event) { e.OtherMessage? || e.DisconnectInd? }

  /** Every message other than a data indication is left in a buffer that is already free again, also
      when a cleanup follows; it stays there unharmed while at most `c + 1` further messages are
      read. */
  lemma MessageSurvives(s: Session, e: Event, later: seq<Event>, n: nat, b: nat, c: nat)
    requires Reachable(s, n, b, c) && LeavesMessage(e)
    requires LegalRun(Step(s, e, n), later, n, b, c) && ReadCount(later) <= c + 1
    ensures s.pool.free != [] && s.pool.free[0] !in Overwritten(Step(s, e, n), later, n)
  {
    ReachableSafe(s, n, b, c);
    StepKeepsInvariant(s, e, n, b, c);
    var place := |s.pool.free| - 1;
    assert Step(s, e, n).pool.free[place] == s.pool.free[0];
    StaysFree(Step(s, e, n), later, n, b, c, place);
  }

  // ---- data indications that wait for their answer ----

  /** Whether the indication numbered `slot` is unanswered after each event. */
  predicate StaysOpen(s: Session, es: seq<Event>, n: nat, slot: nat)
    decreases |es|
  {
    slot in s.open && (es != [] ==> StaysOpen(Step(s, es[0], n), es[1..], n, slot))
  }

  /** However long it takes: the buffer of a data indication is not written to until it is answered or
      its connection ends. */
  lemma {:induction false} IndicationSurvives(s: Session, es: seq<Event>, n: nat, b: nat, c: nat, slot: nat)
    requires Consistent(s, n) && WindowKept(s.open, b, c) && n == 2 + c * (b + 1)
    requires LegalRun(s, es, n, b, c) && StaysOpen(s, es, n, slot)
    ensures slot !in Overwritten(s, es, n)
    decreases |es|
  {
    hide Step, WindowKept, Legal;
    if es != [] {
      StepKeepsInvariant(s, es[0], n, b, c);
      IndicationSurvives(Step(s, es[0], n), es[1..], n, b, c, slot);
    }
  }

  // ---- sessions event by event ----

  lemma {:induction false} RunsJoin(s: Session, es: seq<Event>, fs: seq<Event>, n: nat, b: nat, c: nat)
    requires LegalRun(s, es, n, b, c) && LegalRun(Run(s, es, n), fs, n, b, c)
    ensures LegalRun(s, es + fs, n, b, c) && Run(s, es + fs, n) == Run(Run(s, es, n), fs, n)
    decreases |es|
  {
    hide Legal, Step;
    if es == [] {
      assert es + fs == fs;
    } else {
      assert (es + fs)[1..] == es[1..] + fs;
      RunsJoin(Step(s, es[0], n), es[1..], fs, n, b, c);
    }
  }

  /** A legal event leads from one moment of a session to another. */
  lemma ReachableStep(s: Session, e: Event, n: nat, b: nat, c: nat)
    requires Reachable(s, n, b, c) && Legal(s, e, b, c)
    ensures Reachable(Step(s, e, n), n, b, c)
  {
    hide Legal, Step;
    var es :| LegalRun(Start(n), es, n, b, c) && s == Run(Start(n), es, n);
    assert [e][1..] == [] && Run(s, [e], n) == Step(s, e, n);
    RunsJoin(Start(n), es, [e], n, b, c);
  }

  /** What happens to the pool does not depend on the ledger. */
  lemma PoolAlone(s: Session, e: Event, n: nat)
    ensures Step(s, e, n).pool == Step(Session(s.pool, map[]), e, n).pool
  {
  }
}
