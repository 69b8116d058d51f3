/** Application ids, shared by all processes that use the library.  Each operation runs under one
    semaphore, so it is one step. */
module ApplIds {
  const MAX_APPL := 1024

  datatype Entry = Entry(inuse: bool, fd: int, pid: nat)

  const UNUSED: Entry := Entry(false, -1, 0)

  // ---- specification ----

  /** The highest id below `n` in use, or 0. */
  function Highest(ids: seq<Entry>, n: nat): (h: nat)
    requires n <= |ids|
    ensures h < n || h == 0
    ensures h > 0 ==> ids[h].inuse
    ensures forall i :: h < i < n ==> !ids[i].inuse
  {
    if n == 0 then 0 else if ids[n - 1].inuse then n - 1 else Highest(ids, n - 1)
  }

  /** The lowest unused id from `i` on, or 0 when there is none. */
  function LowestFree(ids: seq<Entry>, i: nat): (r: nat)
    requires 0 < i <= |ids|
    ensures r == 0 || (i <= r < |ids| && !ids[r].inuse)
    ensures forall j :: i <= j < |ids| && (r == 0 || j < r) ==> ids[j].inuse
    decreases |ids| - i
  {
    if i == |ids| then 0 else if ids[i].inuse then LowestFree(ids, i + 1) else i
  }

  datatype Shared = Shared(ids: seq<Entry>, maxId: nat)

  ghost predicate WellFormed(s: Shared) { |s.ids| == MAX_APPL && s.maxId < MAX_APPL }

  function Alloc(s: Shared, pid: nat, fd: int): Shared
    requires |s.ids| > 0
  {
    var r := LowestFree(s.ids, 1);
    if r == 0 then s else Shared(s.ids[r := Entry(true, fd, pid)], if s.maxId < r then r else s.maxId)
  }

  function Free(s: Shared, id: nat): Shared
    requires id < |s.ids|
  {
    var ids := s.ids[id := UNUSED];
    Shared(ids, if s.maxId == id then Highest(ids, id + 1) else s.maxId)
  }

  /** What is left when the process `pid` leaves. */
  function Exit(s: Shared, pid: nat): Shared {
    var ids := seq(|s.ids|, i requires 0 <= i < |s.ids| => if s.ids[i].pid == pid then UNUSED else s.ids[i]);
    Shared(ids, Highest(ids, |ids|))
  }

  function Remember(s: Shared, id: nat, fd: int): Shared
    requires id < |s.ids|
  {
    s.(ids := s.ids[id := s.ids[id].(inuse := true, fd := fd)])
  }

  // ---- the code ----

  class SharedApplIds {
    const id: array<Entry>
    var maxId: nat

    ghost predicate Valid()
      reads this, id
    {
      WellFormed(View())
    }

    ghost function View(): Shared
      reads this, id
    {
      Shared(id[..], maxId)
    }

    constructor ()
      ensures Valid() && View() == Shared(seq(MAX_APPL, i => UNUSED), 0)
    {
      id := new Entry[MAX_APPL](i => UNUSED);
      maxId := 0;
      new;
      assert id[..] == seq(MAX_APPL, i => UNUSED);
    }

    method AllocApplid(myPid: nat, fd: int) returns (applid: nat)
      requires Valid()
      modifies this, id
      ensures Valid() && View() == Alloc(old(View()), myPid, fd)
      ensures applid == LowestFree(old(View()).ids, 1)
      ensures applid != 0 ==> id[..] == old(id[..])[applid := Entry(true, fd, myPid)]
    {
      applid := 1;
      while applid < MAX_APPL
        invariant 1 <= applid <= MAX_APPL
        invariant Valid() && View() == old(View())
        invariant LowestFree(View().ids, 1) == LowestFree(View().ids, applid)
      {
        if !id[applid].inuse {
          id[applid] := Entry(true, fd, myPid);
          if maxId < applid {
            maxId := applid;
          }
          break;
        }
        applid := applid + 1;
      }
      if applid == MAX_APPL {
        applid := 0;
      }
    }

    method FreeApplid(applid: nat)
      requires Valid()
      modifies this, id
      ensures Valid() && View() == if applid < MAX_APPL then Free(old(View()), applid) else old(View())
      ensures applid < 1024 ==> id[..] == old(id[..])[applid := Entry(false, -1, 0)]
    {
      if applid < MAX_APPL {
        id[applid] := UNUSED;
        if maxId == applid {
          var a: nat := maxId;
          while a > 0 && !id[a].inuse
            invariant a < MAX_APPL
            invariant Highest(id[..], a + 1) == Highest(id[..], applid + 1)
          {
            a := a - 1;
          }
          maxId := a;
        }
      }
    }

    method ExitLib(myPid: nat)
      requires Valid()
      modifies this, id
      ensures Valid() && View() == Exit(old(View()), myPid)
      ensures forall i :: 0 <= i < 1024 ==>
                id[i] == if old(id[i].pid) == myPid then Entry(false, -1, 0) else old(id[i])
    {
      ghost var before := id[..];
      var lastInuse := 0;
      for i := 0 to MAX_APPL
        invariant lastInuse < MAX_APPL
        invariant forall j :: 0 <= j < MAX_APPL ==>
                    id[j] == if j < i && before[j].pid == myPid then UNUSED else before[j]
        invariant lastInuse == Highest(id[..], i)
      {
        ghost var now := id[..];
        if id[i].pid == myPid {
          id[i] := UNUSED;
          HighestUnchanged(now, id[..], i);
        } else if id[i].inuse {
          lastInuse := i;
        }
      }
      maxId := lastInuse;
      assert id[..] == Exit(Shared(before, 0), myPid).ids;
      assert forall i :: 0 <= i < MAX_APPL ==> before[i] == old(id[i]);
    }

    /** Notes an id that was assigned elsewhere. */
    method RememberApplid(applid: nat, fd: int) returns (r: int)
      requires Valid()
      modifies id
      ensures Valid() && View() == if applid < MAX_APPL then Remember(old(View()), applid, fd) else old(View())
      ensures r == if applid < MAX_APPL then 0 else -1
      ensures applid < 1024 ==> id[..] == old(id[..])[applid := Entry(true, fd, old(id[applid].pid))]
    {
      if applid >= MAX_APPL {
        return -1;
      }
      id[applid] := id[applid].(fd := fd);
      id[applid] := id[applid].(inuse := true);
      return 0;
    }
  }

  lemma {:induction false} HighestUnchanged(a: seq<Entry>, b: seq<Entry>, n: nat)
    requires n <= |a| == |b| && forall i :: 0 <= i < n ==> a[i].inuse == b[i].inuse
    ensures Highest(a, n) == Highest(b, n)
  {
    if n > 0 {
      HighestUnchanged(a, b, n - 1);
    }
  }

  // ---- runs of many processes ----

  datatype Event = DoAlloc(pid: nat, fd: int) | DoFree(pid: nat, id: nat) | DoExit(pid: nat)

  /** The table, and a ledger of which process was given each id it has not given back. */
  datatype World = World(shared: Shared, held: map<nat, nat>)

  function Step(w: World, e: Event): World
    requires WellFormed(w.shared)
  {
    match e
    case DoAlloc(pid, fd) =>
      var r := LowestFree(w.shared.ids, 1);
      World(Alloc(w.shared, pid, fd), if r == 0 then w.held else w.held[r := pid])
    case DoFree(pid, id) =>
      if id < MAX_APPL then World(Free(w.shared, id), w.held - {id}) else w
    case DoExit(pid) =>
      World(Exit(w.shared, pid), map i | i in w.held && w.held[i] != pid :: w.held[i])
  }

  /** Processes have ids other than 0 and free only what they were given. */
  predicate Legal(w: World, e: Event) {
    e.pid != 0 && (e.DoFree? ==> e.id in w.held && w.held[e.id] == e.pid)
  }

  ghost predicate LedgerHolds(w: World) {
    && WellFormed(w.shared)
    && (forall i :: i in w.held ==> 0 < i < MAX_APPL && w.held[i] != 0)
    && (forall i :: 0 <= i < MAX_APPL ==>
          && w.shared.ids[i].inuse == (i in w.held)
          && w.shared.ids[i].pid == if i in w.held then w.held[i] else 0)
    && w.shared.maxId == Highest(w.shared.ids, MAX_APPL)
  }

  function Start(): World { World(Shared(seq(MAX_APPL, i => UNUSED), 0), map[]) }

  ghost predicate Run(w: World, es: seq<Event>, end: World)
    decreases |es|
  {
    if es == [] then w == end
    else WellFormed(w.shared) && Legal(w, es[0]) && Run(Step(w, es[0]), es[1..], end)
  }

  lemma HighestIs(ids: seq<Entry>, n: nat, h: nat)
    requires n <= |ids| && (h == 0 || (h < n && ids[h].inuse)) && forall i :: h < i < n ==> !ids[i].inuse
    ensures Highest(ids, n) == h
  {
  }

  lemma AllocKeepsLedger(w: World, pid: nat, fd: int)
    requires LedgerHolds(w) && pid != 0
    ensures LedgerHolds(Step(w, DoAlloc(pid, fd)))
  {
    var t := Step(w, DoAlloc(pid, fd));
    if LowestFree(w.shared.ids, 1) != 0 {
      HighestIs(t.shared.ids, MAX_APPL, t.shared.maxId);
    }
  }

  lemma FreeKeepsLedger(w: World, id: nat)
    requires LedgerHolds(w) && id in w.held
    ensures LedgerHolds(Step(w, DoFree(w.held[id], id)))
  {
    var t := Step(w, DoFree(w.held[id], id));
    HighestIs(t.shared.ids, MAX_APPL, t.shared.maxId);
  }

  lemma ExitKeepsLedger(w: World, pid: nat)
    requires LedgerHolds(w) && pid != 0
    ensures LedgerHolds(Step(w, DoExit(pid)))
  {
  }

  lemma StepKeepsLedger(w: World, e: Event)
    requires LedgerHolds(w) && Legal(w, e)
    ensures LedgerHolds(Step(w, e))
  {
    hide Alloc, Free, Exit;
    match e
    case DoAlloc(pid, fd) => AllocKeepsLedger(w, pid, fd);
    case DoFree(pid, id) => FreeKeepsLedger(w, id);
    case DoExit(pid) => ExitKeepsLedger(w, pid);
  }

  /** In every interleaving of processes the table says exactly who holds what, and `maxId` is the
      highest id in use. */
  lemma {:induction false} RunKeepsLedger(w: World, es: seq<Event>, end: World)
    requires LedgerHolds(w) && Run(w, es, end)
    ensures LedgerHolds(end)
    decreases |es|
  {
    hide LedgerHolds, Legal, Step;
    if es != [] {
      StepKeepsLedger(w, es[0]);
      RunKeepsLedger(Step(w, es[0]), es[1..], end);
    }
  }

  lemma StartHolds()
    ensures LedgerHolds(Start())
  {
    HighestIs(Start().shared.ids, MAX_APPL, 0);
  }

  /** An id that is handed out is held by nobody and is the lowest such; none is handed out only
      when all are held. */
  lemma IdsNotShared(es: seq<Event>, w: World, pid: nat, fd: int)
    requires Run(Start(), es, w) && pid != 0
    ensures WellFormed(w.shared)
    ensures var r := LowestFree(w.shared.ids, 1); var t := Step(w, DoAlloc(pid, fd));
            if r == 0 then t == w && forall i :: 0 < i < MAX_APPL ==> i in w.held
            else
              && r !in w.held && (forall i :: 0 < i < r ==> i in w.held)
              && t.held == w.held[r := pid] && t.shared.ids[r] == Entry(true, fd, pid)
  {
    StartHolds();
    RunKeepsLedger(Start(), es, w);
  }

  /** When a process leaves, exactly the ids it holds become free. */
  lemma ExitFreesOwn(es: seq<Event>, w: World, pid: nat)
    requires Run(Start(), es, w) && pid != 0
    ensures WellFormed(w.shared)
    ensures var t := Exit(w.shared, pid);
            && |t.ids| == MAX_APPL
            && (forall i :: 0 <= i < MAX_APPL && i in w.held ==>
                  t.ids[i] == if w.held[i] == pid then UNUSED else w.shared.ids[i])
            && (forall i :: 0 <= i < MAX_APPL && i !in w.held ==> !t.ids[i].inuse)
            && t.maxId == Highest(t.ids, MAX_APPL)
  {
    StartHolds();
    RunKeepsLedger(Start(), es, w);
  }

  /** Noting an id assigned elsewhere leaves `maxId` right exactly when the id is not above it. */
  lemma RememberKeepsMaxId(s: Shared, id: nat, fd: int)
    requires WellFormed(s) && id < MAX_APPL && s.maxId == Highest(s.ids, MAX_APPL)
    ensures var t := Remember(s, id, fd); t.maxId == Highest(t.ids, MAX_APPL) <==> id <= s.maxId
  {
    var t := Remember(s, id, fd);
    HighestIs(t.ids, MAX_APPL, if id <= s.maxId then s.maxId else id);
  }
}
