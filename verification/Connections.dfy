/** The connection table of capifax: eight entries found by linear search, against the calls that
    the controller has open. */
module Connections {
  import opened Calls

  datatype Entry = Entry(inUse: bool, plci: int, ncci: int, controller: int, state: State, initiator: bool)

  /** `AllocConnection` resets every field. */
  const BLANK_ENTRY := Entry(true, INVALID, INVALID, INVALID, Disconnected, false)

  // The table

  /** The first entry from `k` on that is in use for a PLCI, or -1. */
  function ByPlci(c: seq<Entry>, plci: int, k: nat): (con: int)
    requires k <= |c|
    ensures con == INVALID || (k <= con < |c| && c[con].inUse && c[con].plci == plci)
    ensures forall i :: k <= i < (if con == INVALID then |c| else con) ==> !(c[i].inUse && c[i].plci == plci)
    decreases |c| - k
  {
    if k == |c| then INVALID
    else if c[k].inUse && c[k].plci == plci then k
    else ByPlci(c, plci, k + 1)
  }

  /** The same for an NCCI. */
  function ByNcci(c: seq<Entry>, ncci: int, k: nat): (con: int)
    requires k <= |c|
    ensures con == INVALID || (k <= con < |c| && c[con].inUse && c[con].ncci == ncci)
    ensures forall i :: k <= i < (if con == INVALID then |c| else con) ==> !(c[i].inUse && c[i].ncci == ncci)
    decreases |c| - k
  {
    if k == |c| then INVALID
    else if c[k].inUse && c[k].ncci == ncci then k
    else ByNcci(c, ncci, k + 1)
  }

  /** The first unused entry from `k` on, or -1. */
  function FirstFree(c: seq<Entry>, k: nat): (con: int)
    requires k <= |c|
    ensures con == INVALID || (k <= con < |c| && !c[con].inUse)
    ensures forall i :: k <= i < (if con == INVALID then |c| else con) ==> c[i].inUse
    decreases |c| - k
  {
    if k == |c| then INVALID
    else if !c[k].inUse then k
    else FirstFree(c, k + 1)
  }

  function Count(used: bool): nat {
    if used then 1 else 0
  }

  /** How many entries from `k` on are in use. */
  function Used(c: seq<Entry>, k: nat): nat
    requires k <= |c|
    decreases |c| - k
  {
    if k == |c| then 0 else Count(c[k].inUse) + Used(c, k + 1)
  }

  function CallOf(e: Entry): Call {
    Call(e.ncci, e.state, e.initiator)
  }

  ghost predicate EntryFits(e: Entry, i: int, w: World) {
    if e.plci == INVALID then
      i in w.dialling && e.ncci == INVALID
    else
      e.plci in w.calls && w.calls[e.plci] == CallOf(e) && e.controller == e.plci % 256
  }

  ghost predicate EntriesFit(c: seq<Entry>, w: World) {
    forall i :: 0 <= i < |c| && c[i].inUse ==> EntryFits(c[i], i, w)
  }

  /** No two entries in use have the same PLCI. */
  ghost predicate Apart(c: seq<Entry>) {
    forall i, j :: 0 <= i < j < |c| && c[i].inUse && c[j].inUse && c[i].plci == c[j].plci ==> c[i].plci == INVALID
  }

  ghost predicate HoldsAll(c: seq<Entry>, w: World) {
    && (forall p <- w.calls :: ByPlci(c, p, 0) != INVALID)
    && (forall m <- w.dialling :: 0 <= m < |c| && c[m].inUse && c[m].plci == INVALID)
  }

  /** The table holds each open call in one entry of its own, and each unanswered connection request
      in the entry whose index is its message number. */
  ghost predicate Represents(c: seq<Entry>, w: World) {
    && |c| == MAX_CONNECTIONS
    && Sound(w)
    && EntriesFit(c, w)
    && Apart(c)
    && HoldsAll(c, w)
    && Used(c, 0) == |w.calls| + |w.dialling|
  }

  /** Lookup by PLCI finds exactly the open calls, lookup by NCCI exactly the logical connections of
      open calls, and the NCCI and its low word name the same entry. */
  lemma LookupsAgree(c: seq<Entry>, w: World, plci: int, ncci: int)
    requires Represents(c, w) && IsPlci(plci) && IsNcci(ncci)
    ensures ByPlci(c, plci, 0) != INVALID <==> plci in w.calls
    ensures plci in w.calls ==> CallOf(c[ByPlci(c, plci, 0)]) == w.calls[plci]
    ensures ByNcci(c, ncci, 0) != INVALID <==> Owns(w, ncci)
    ensures ByNcci(c, ncci, 0) != INVALID ==> ByNcci(c, ncci, 0) == ByPlci(c, PlciOf(ncci), 0)
  {
    var i := ByPlci(c, plci, 0);
    var j := ByNcci(c, ncci, 0);
    if i != INVALID {
      assert EntryFits(c[i], i, w);
    }
    if j != INVALID {
      assert EntryFits(c[j], j, w);
      var k := ByPlci(c, PlciOf(ncci), 0);
      assert c[j].plci == PlciOf(ncci);
      assert k <= j;
    }
    if Owns(w, ncci) {
      var k := ByPlci(c, PlciOf(ncci), 0);
      assert EntryFits(c[k], k, w);
    }
  }

  lemma {:induction false} UsedAll(c: seq<Entry>, k: nat)
    requires k <= |c|
    ensures Used(c, k) <= |c| - k
    ensures Used(c, k) == |c| - k <==> FirstFree(c, k) == INVALID
    decreases |c| - k
  {
    if k < |c| {
      UsedAll(c, k + 1);
    }
  }

  lemma {:induction false} UsedUpdate(c: seq<Entry>, i: nat, e: Entry, k: nat)
    requires i < |c| && k <= |c|
    ensures Used(c[i := e], k) == Used(c, k) + if k <= i then Count(e.inUse) - Count(c[i].inUse) else 0
    decreases |c| - k
  {
    if k < |c| {
      UsedUpdate(c, i, e, k + 1);
    }
  }

  /** A connection can be had exactly when the calls and requests do not fill the table. */
  lemma FreeUnlessFull(c: seq<Entry>, w: World)
    requires Represents(c, w)
    ensures FirstFree(c, 0) == INVALID <==> Full(w)
  {
    UsedAll(c, 0);
  }

  // One entry changes

  lemma Found(c: seq<Entry>, i: nat)
    requires i < |c| && c[i].inUse
    ensures ByPlci(c, c[i].plci, 0) != INVALID
  {
  }

  ghost predicate OthersFit(c: seq<Entry>, i: nat, v: World) {
    forall k :: 0 <= k < |c| && k != i && c[k].inUse ==> EntryFits(c[k], k, v)
  }

  /** One entry changes from `c[i]` to `e` while the world changes from `w` to `v`. */
  lemma EntryChanged(c: seq<Entry>, w: World, i: nat, e: Entry, v: World)
    requires Represents(c, w) && i < |c| && Sound(v)
    requires e.inUse ==> EntryFits(e, i, v)
    requires OthersFit(c, i, v)
    requires e.inUse && e.plci != INVALID ==> forall k :: 0 <= k < |c| && k != i && c[k].inUse ==> c[k].plci != e.plci
    requires forall p <- v.calls :: (e.inUse && e.plci == p) || (p in w.calls && !(c[i].inUse && c[i].plci == p))
    requires forall m <- v.dialling :: if m == i then e.inUse && e.plci == INVALID else m in w.dialling
    requires |v.calls| + |v.dialling| == |w.calls| + |w.dialling| + Count(e.inUse) - Count(c[i].inUse)
    ensures Represents(c[i := e], v)
  {
    hide ByPlci, Sound;
    var d := c[i := e];
    UsedUpdate(c, i, e, 0);
    forall p <- v.calls ensures ByPlci(d, p, 0) != INVALID {
      if e.inUse && e.plci == p {
        Found(d, i);
      } else {
        Found(d, ByPlci(c, p, 0));
      }
    }
  }

  /** The entry of a call changes: the call changes alike. */
  lemma CallChanged(c: seq<Entry>, w: World, i: nat, e: Entry)
    requires Represents(c, w) && i < |c| && c[i].inUse && c[i].plci != INVALID
    requires e == c[i].(ncci := e.ncci, state := e.state, initiator := e.initiator)
    requires Sound(Update(w, e.plci, CallOf(e)))
    ensures Represents(c[i := e], Update(w, e.plci, CallOf(e)))
  {
    var v := Update(w, e.plci, CallOf(e));
    assert EntryFits(c[i], i, w);
    assert v.calls.Keys == w.calls.Keys;
    forall k | 0 <= k < |c| && k != i && c[k].inUse ensures EntryFits(c[k], k, v) {
      assert EntryFits(c[k], k, w);
    }
    EntryChanged(c, w, i, e, v);
  }

  /** A free entry is taken for a new call. */
  lemma CallOpened(c: seq<Entry>, w: World, i: nat, e: Entry)
    requires Represents(c, w) && i < |c| && !c[i].inUse
    requires e.inUse && IsPlci(e.plci) && e.plci !in w.calls && e.controller == e.plci % 256
    requires Sound(Update(w, e.plci, CallOf(e)))
    ensures Represents(c[i := e], Update(w, e.plci, CallOf(e)))
  {
    var v := Update(w, e.plci, CallOf(e));
    forall k | 0 <= k < |c| && k != i && c[k].inUse ensures EntryFits(c[k], k, v) && c[k].plci != e.plci {
      assert EntryFits(c[k], k, w);
    }
    assert v.calls.Keys == w.calls.Keys + {e.plci};
    EntryChanged(c, w, i, e, v);
  }

  /** The connection request in an entry is answered, and the entry becomes a call's. */
  lemma CallAnswered(c: seq<Entry>, w: World, i: nat, e: Entry)
    requires Represents(c, w) && i < |c| && i in w.dialling
    requires e.inUse && IsPlci(e.plci) && e.plci !in w.calls && e.controller == e.plci % 256
    requires Sound(World(w.calls[e.plci := CallOf(e)], w.dialling - {i}))
    ensures Represents(c[i := e], World(w.calls[e.plci := CallOf(e)], w.dialling - {i}))
  {
    var v := World(w.calls[e.plci := CallOf(e)], w.dialling - {i});
    forall k | 0 <= k < |c| && k != i && c[k].inUse ensures EntryFits(c[k], k, v) && c[k].plci != e.plci {
      assert EntryFits(c[k], k, w);
    }
    assert v.calls.Keys == w.calls.Keys + {e.plci};
    EntryChanged(c, w, i, e, v);
  }

  /** A free entry is taken for a connection request. */
  lemma DialOpened(c: seq<Entry>, w: World, i: nat)
    requires Represents(c, w) && i < |c| && !c[i].inUse
    ensures Represents(c[i := BLANK_ENTRY], w.(dialling := w.dialling + {i}))
  {
    var v := w.(dialling := w.dialling + {i});
    forall k | 0 <= k < |c| && k != i && c[k].inUse ensures EntryFits(c[k], k, v) {
      assert EntryFits(c[k], k, w);
    }
    EntryChanged(c, w, i, BLANK_ENTRY, v);
  }

  /** The entry of a connection request that failed is freed. */
  lemma DialClosed(c: seq<Entry>, w: World, i: nat, e: Entry)
    requires Represents(c, w) && i < |c| && i in w.dialling && !e.inUse
    ensures Represents(c[i := e], w.(dialling := w.dialling - {i}))
  {
    var v := w.(dialling := w.dialling - {i});
    forall k | 0 <= k < |c| && k != i && c[k].inUse ensures EntryFits(c[k], k, v) {
      assert EntryFits(c[k], k, w);
    }
    EntryChanged(c, w, i, e, v);
  }

  /** The entry of a call that ended is freed. */
  lemma CallClosed(c: seq<Entry>, w: World, i: nat, e: Entry)
    requires Represents(c, w) && i < |c| && c[i].inUse && c[i].plci != INVALID && !e.inUse
    ensures Represents(c[i := e], w.(calls := w.calls - {c[i].plci}))
  {
    var v := w.(calls := w.calls - {c[i].plci});
    assert EntryFits(c[i], i, w);
    forall k | 0 <= k < |c| && k != i && c[k].inUse ensures EntryFits(c[k], k, v) {
      assert EntryFits(c[k], k, w);
    }
    assert v.calls.Keys == w.calls.Keys - {c[i].plci};
    EntryChanged(c, w, i, e, v);
  }

  class ConnectionTable {
    const c: array<Entry>
    /** The controller's calls and the unanswered connection requests. */
    ghost var world: World
    /** All that was said. */
    ghost var log: seq<Step>

    ghost predicate Valid()
      reads this, c
    {
      Represents(c[..], world)
    }

    /** The table is the one that all that was said leads to. */
    ghost predicate Traced()
      reads this, c
    {
      Valid() && Happens(log) && world == WorldOf(log)
    }

    /** An entry holds what was said about its call: the NCCI, the state, and whether it is our turn. */
    lemma EntryIsHistory(i: nat)
      requires Traced() && i < c.Length && c[i].inUse && c[i].plci != INVALID
      ensures
        var p := c[i].plci;
        IsOpen(log, p) && CallOf(c[i]) == Call(LastNcci(log, p), LastState(log, p), OurTurn(log, p))
    {
      WorldIsHistory(log);
      assert EntryFits(c[..][i], i, world);
      hide LastNcci, LastState, OurTurn, IsOpen, Happens, WorldOf;
      assert FollowsFor(log, world, c[i].plci);
    }

    /** `InitConnectionIDHandling`: no entry is in use. */
    constructor ()
      ensures Traced() && fresh(c) && world == World(map[], {}) && log == []
    {
      c := new Entry[MAX_CONNECTIONS](i => BLANK_ENTRY.(inUse := false));
      world := World(map[], {});
      log := [];
      new;
      UsedAll(c[..], 0);
      NoneUsed(c[..], 0);
    }

    method AllocConnection() returns (con: int)
      requires c.Length == MAX_CONNECTIONS
      modifies c
      ensures con == FirstFree(old(c[..]), 0)
      ensures c[..] == if con == INVALID then old(c[..]) else old(c[..])[con := BLANK_ENTRY]
    {
      for k := 0 to MAX_CONNECTIONS
        invariant c[..] == old(c[..])
        invariant FirstFree(c[..], 0) == FirstFree(c[..], k)
      {
        if !c[k].inUse {
          c[k] := BLANK_ENTRY;
          assert c[..] == old(c[..])[k := BLANK_ENTRY];
          return k;
        }
      }
      con := INVALID;
    }

    method FreeConnection(con: int)
      requires 0 <= con < c.Length && c[con].inUse
      modifies c
      ensures c[..] == old(c[..])[con := old(c[con]).(inUse := false)]
    {
      c[con] := c[con].(inUse := false);
    }

    method SetConnectionPLCI(con: int, plci: int)
      requires 0 <= con < c.Length && c[con].inUse
      modifies c
      ensures c[..] == old(c[..])[con := old(c[con]).(plci := plci, controller := plci % 256)]
    {
      c[con] := c[con].(plci := plci);
      c[con] := c[con].(controller := plci % 256);
    }

    method SetConnectionNCCI(con: int, ncci: int)
      requires 0 <= con < c.Length && c[con].inUse
      modifies c
      ensures c[..] == old(c[..])[con := old(c[con]).(ncci := ncci)]
    {
      c[con] := c[con].(ncci := ncci);
    }

    method SetState(con: int, state: State)
      requires 0 <= con < c.Length && c[con].inUse
      modifies c
      ensures c[..] == old(c[..])[con := old(c[con]).(state := state)]
    {
      c[con] := c[con].(state := state);
    }

    method SetConnectionInitiator(con: int, initiator: bool)
      requires 0 <= con < c.Length && c[con].inUse
      modifies c
      ensures c[..] == old(c[..])[con := old(c[con]).(initiator := initiator)]
    {
      c[con] := c[con].(initiator := initiator);
    }

    method GetConnectionByPLCI(plci: int) returns (con: int)
      requires plci != INVALID
      ensures con == ByPlci(c[..], plci, 0)
    {
      for k := 0 to c.Length
        invariant ByPlci(c[..], plci, 0) == ByPlci(c[..], plci, k)
      {
        if c[k].inUse && c[k].plci == plci {
          return k;
        }
      }
      con := INVALID;
    }

    method GetConnectionByNCCI(ncci: int) returns (con: int)
      requires ncci != INVALID
      ensures con == ByNcci(c[..], ncci, 0)
    {
      for k := 0 to c.Length
        invariant ByNcci(c[..], ncci, 0) == ByNcci(c[..], ncci, k)
      {
        if c[k].inUse && c[k].ncci == ncci {
          return k;
        }
      }
      con := INVALID;
    }

    /** `Connect`: takes an entry and sends its index as the message number of a CONNECT_REQ, which
        the library may refuse. */
    method Connect(accepted: bool) returns (con: int)
      requires Traced()
      modifies this`world, this`log, c
      ensures Traced()
      ensures con != INVALID <==> !Full(old(world)) && accepted
      ensures con != INVALID ==> con !in old(world).dialling
      ensures world == if con == INVALID then old(world) else old(world).(dialling := old(world).dialling + {con})
      ensures log == if con == INVALID then old(log) else old(log) + [Dial(con)]
    {
      hide Happens, WorldOf, Represents;
      con := TakeEntry(accepted);
      if con != INVALID {
        Longer(log, Dial(con));
        log := log + [Dial(con)];
      }
    }

    method TakeEntry(accepted: bool) returns (con: int)
      requires Valid()
      modifies this`world, c
      ensures Valid()
      ensures con != INVALID <==> !Full(old(world)) && accepted
      ensures con != INVALID ==> con !in old(world).dialling
      ensures world == if con == INVALID then old(world) else old(world).(dialling := old(world).dialling + {con})
    {
      ghost var table := c[..];
      FreeUnlessFull(table, world);
      con := AllocConnection();
      if con != INVALID {
        DialOpened(table, world, con);
        ghost var withDial := world.(dialling := world.dialling + {con as int});
        assert con !in world.dialling;
        if !accepted {
          DialClosed(c[..], withDial, con, c[con].(inUse := false));
          assert withDial.dialling - {con} == world.dialling;
          FreeConnection(con);
          con := INVALID;
        } else {
          world := withDial;
        }
      }
    }

    /** The entry of the call `p`. */
    method Lookup(p: int) returns (con: int)
      requires Valid() && IsPlci(p)
      ensures con == INVALID <==> p !in world.calls
      ensures con != INVALID ==> InEntry(p, con)
    {
      LookupsAgree(c[..], world, p, 0);
      con := GetConnectionByPLCI(p);
    }

    /** The entry of the call that owns the logical connection `n`. */
    method LookupNCCI(n: int) returns (con: int)
      requires Valid() && Owns(world, n)
      ensures InEntry(PlciOf(n), con)
    {
      LookupsAgree(c[..], world, PlciOf(n), n);
      con := GetConnectionByNCCI(n);
    }

    ghost predicate InEntry(p: int, con: int)
      reads this, c
    {
      && 0 <= con < c.Length
      && c[con].inUse
      && c[con].plci == p != INVALID
      && p in world.calls
      && world.calls[p] == CallOf(c[con])
    }

    /** Once the setters have run on the entry of a call, the table is that of the changed call. */
    lemma Settled(table: seq<Entry>, con: int, call: Call)
      requires Represents(table, world) && 0 <= con < |table| && table[con].inUse && table[con].plci != INVALID
      requires c[..] == table[con := table[con].(ncci := call.ncci, state := call.state, initiator := call.initiator)]
      requires Sound(Update(world, table[con].plci, call))
      ensures Represents(c[..], Update(world, table[con].plci, call))
    {
      CallChanged(table, world, con, c[con]);
    }

    /** An incoming call, or one that is known already. */
    method HandleConnectInd(p: int) returns (requests: seq<Request>)
      requires Valid() && MayIndicate(world, ConnectInd(p))
      modifies this`world, c
      ensures Valid()
      ensures world == Indicated(old(world), ConnectInd(p))
      ensures requests == IndicationRequests(old(world), ConnectInd(p))
    {
      IndicatedSound(world, ConnectInd(p));
      ghost var table, after := c[..], Indicated(world, ConnectInd(p));
      FreeUnlessFull(table, world);
      hide Represents, Sound;
      var con := Lookup(p);
      if con == INVALID {
        con := AllocConnection();
        if con == INVALID {
          return [Reject(p)];
        }
        SetConnectionPLCI(con, p);
        SetState(con, D_ConnectPending);
        CallOpened(table, world, con, c[con]);
        assert c[..] == table[con := c[con]];
      } else {
        SetState(con, D_ConnectPending);
        Settled(table, con, after.calls[p]);
      }
      requests := [Alert(p)];
      world := after;
    }

    method HandleConnectActiveInd(p: int) returns (requests: seq<Request>)
      requires Valid() && MayIndicate(world, ConnectActiveInd(p))
      modifies this`world, c
      ensures Valid()
      ensures world == Indicated(old(world), ConnectActiveInd(p))
      ensures requests == IndicationRequests(old(world), ConnectActiveInd(p))
    {
      IndicatedSound(world, ConnectActiveInd(p));
      ghost var table, after := c[..], Indicated(world, ConnectActiveInd(p));
      hide Represents;
      var con := Lookup(p);
      SetState(con, D_Connected);
      requests := if c[con].initiator then [ConnectB3Req(p)] else [];
      Settled(table, con, after.calls[p]);
      world := after;
    }

    /** A logical connection comes up: by an indication, or by the confirmation of a request. */
    method EnterNCCI(n: int)
      requires Valid() && MayIndicate(world, ConnectB3Ind(n))
      modifies this`world, c
      ensures Valid()
      ensures world == Indicated(old(world), ConnectB3Ind(n))
    {
      IndicatedSound(world, ConnectB3Ind(n));
      ghost var table, after := c[..], Indicated(world, ConnectB3Ind(n));
      hide Represents;
      var con := Lookup(PlciOf(n));
      SetConnectionNCCI(con, n);
      SetState(con, B_ConnectPending);
      Settled(table, con, after.calls[PlciOf(n)]);
      world := after;
    }

    method HandleConnectB3ActiveInd(n: int)
      requires Valid() && MayIndicate(world, ConnectB3ActiveInd(n))
      modifies this`world, c
      ensures Valid()
      ensures world == Indicated(old(world), ConnectB3ActiveInd(n))
    {
      IndicatedSound(world, ConnectB3ActiveInd(n));
      ghost var table, after := c[..], Indicated(world, ConnectB3ActiveInd(n));
      hide Represents;
      var con := LookupNCCI(n);
      SetConnectionInitiator(con, false);
      SetState(con, Connected);
      Settled(table, con, after.calls[PlciOf(n)]);
      world := after;
    }

    method HandleDisconnectB3Ind(n: int) returns (requests: seq<Request>)
      requires Valid() && MayIndicate(world, DisconnectB3Ind(n))
      modifies this`world, c
      ensures Valid()
      ensures world == Indicated(old(world), DisconnectB3Ind(n))
      ensures requests == IndicationRequests(old(world), DisconnectB3Ind(n))
    {
      IndicatedSound(world, DisconnectB3Ind(n));
      ghost var table, after := c[..], Indicated(world, DisconnectB3Ind(n));
      hide Represents;
      var con := LookupNCCI(n);
      SetConnectionNCCI(con, INVALID);
      SetState(con, D_Connected);
      requests := if c[con].initiator then [DisconnectReq(c[con].plci)] else [];
      Settled(table, con, after.calls[PlciOf(n)]);
      world := after;
    }

    method HandleDisconnectInd(p: int)
      requires Valid() && MayIndicate(world, DisconnectInd(p))
      modifies this`world, c
      ensures Valid()
      ensures world == Indicated(old(world), DisconnectInd(p))
    {
      assert IsPlci(p);
      ghost var table := c[..];
      hide Represents;
      var con := Lookup(p);
      SetState(con, Disconnected);
      FreeConnection(con);
      CallClosed(table, world, con, c[con]);
      assert c[..] == table[con := c[con]];
      world := Indicated(world, DisconnectInd(p));
    }

    /** Every indication is carried out on the entry it concerns, and none meets an entry that is
        missing.  What is answered follows from what was said before. */
    method HandleIndication(ind: Indication) returns (requests: seq<Request>)
      requires Traced() && MayIndicate(world, ind)
      modifies this`world, this`log, c
      ensures Traced()
      ensures world == Indicated(old(world), ind)
      ensures requests == IndicationRequests(old(world), ind)
      ensures log == old(log) + [Indicate(ind, requests)]
      ensures Answered(old(log), ind, requests)
    {
      hide Represents, Happens, WorldOf, Answered, IndicationRequests, Indicated;
      AnswersFollow(log, ind);
      requests := CarryOut(ind);
      Longer(log, Indicate(ind, requests));
      log := log + [Indicate(ind, requests)];
    }

    method CarryOut(ind: Indication) returns (requests: seq<Request>)
      requires Valid() && MayIndicate(world, ind)
      modifies this`world, c
      ensures Valid()
      ensures world == Indicated(old(world), ind)
      ensures requests == IndicationRequests(old(world), ind)
    {
      hide Represents;
      requests := [];
      match ind {
        case ConnectInd(p) => requests := HandleConnectInd(p);
        case ConnectActiveInd(p) => requests := HandleConnectActiveInd(p);
        case ConnectB3Ind(n) => EnterNCCI(n);
        case ConnectB3ActiveInd(n) => HandleConnectB3ActiveInd(n);
        case DisconnectB3Ind(n) => requests := HandleDisconnectB3Ind(n);
        case DisconnectInd(p) => HandleDisconnectInd(p);
      }
    }

    method HandleConnectConf(number: int, plci: int, info: nat)
      requires Valid() && MayConfirm(world, ConnectConf(number, plci), info)
      modifies this`world, c
      ensures Valid()
      ensures world == Confirmed(old(world), ConnectConf(number, plci), info)
    {
      var conf := ConnectConf(number, plci);
      ConfirmedSound(world, conf, info);
      ghost var table, after := c[..], Confirmed(world, conf, info);
      assert 0 <= number < c.Length && c[number].inUse && c[number].ncci == INVALID;
      hide Represents;
      if info > 0xff {
        SetState(number, D_ConnectPending);
        SetState(number, Disconnected);
        FreeConnection(number);
        DialClosed(table, world, number, c[number]);
        assert c[..] == table[number := c[number]];
      } else {
        SetConnectionPLCI(number, plci);
        SetConnectionInitiator(number, true);
        SetState(number, D_ConnectPending);
        CallAnswered(table, world, number, c[number]);
        assert c[..] == table[number := c[number]];
      }
      world := after;
    }

    method HandleDisconnectConf(p: int, info: nat)
      requires Valid() && MayConfirm(world, DisconnectConf(p), info)
      modifies this`world, c
      ensures Valid()
      ensures world == Confirmed(old(world), DisconnectConf(p), info)
    {
      ConfirmedSound(world, DisconnectConf(p), info);
      ghost var table, after := c[..], Confirmed(world, DisconnectConf(p), info);
      hide Represents;
      var con := Lookup(p);
      if info <= 0xff && con != INVALID {
        SetState(con, D_DisconnectPending);
        Settled(table, con, after.calls[p]);
        world := after;
      }
    }

    method HandleDisconnectB3Conf(n: int)
      requires Valid() && MayConfirm(world, DisconnectB3Conf(n), 0)
      modifies this`world, c
      ensures Valid()
      ensures world == Confirmed(old(world), DisconnectB3Conf(n), 0)
    {
      ConfirmedSound(world, DisconnectB3Conf(n), 0);
      ghost var table, after := c[..], Confirmed(world, DisconnectB3Conf(n), 0);
      hide Represents;
      var con := LookupNCCI(n);
      SetConnectionInitiator(con, true);
      SetState(con, B_DisconnectPending);
      Settled(table, con, after.calls[PlciOf(n)]);
      world := after;
    }

    /** The same for confirmations; an error, that is, an information value above 0xff, ends the
        connection it concerns or changes nothing. */
    method HandleConfirmation(conf: Confirmation, info: nat) returns (requests: seq<Request>)
      requires Traced() && MayConfirm(world, conf, info)
      modifies this`world, this`log, c
      ensures Traced()
      ensures world == Confirmed(old(world), conf, info)
      ensures requests == ConfirmationRequests(conf, info)
      ensures log == old(log) + [Confirm(conf, info, requests)]
      ensures requests == if conf.ConnectB3Conf? && info > 0xff then [DisconnectReq(conf.ncci % 0x1_0000)] else []
    {
      Longer(log, Confirm(conf, info, ConfirmationRequests(conf, info)));
      hide Represents, Happens, WorldOf, Confirmed;
      requests := TakeConfirmation(conf, info);
      log := log + [Confirm(conf, info, requests)];
    }

    method TakeConfirmation(conf: Confirmation, info: nat) returns (requests: seq<Request>)
      requires Valid() && MayConfirm(world, conf, info)
      modifies this`world, c
      ensures Valid()
      ensures world == Confirmed(old(world), conf, info)
      ensures requests == ConfirmationRequests(conf, info)
    {
      hide Represents;
      requests := [];
      match conf {
        case ConnectConf(number, plci) =>
          HandleConnectConf(number, plci, info);
        case ConnectB3Conf(n) =>
          if info > 0xff {
            var con := Lookup(PlciOf(n));
            requests := if con == INVALID then [] else [DisconnectReq(c[con].plci)];
          } else {
            EnterNCCI(n);
          }
        case DisconnectConf(p) =>
          HandleDisconnectConf(p, info);
        case DisconnectB3Conf(n) =>
          if info <= 0xff {
            HandleDisconnectB3Conf(n);
          }
      }
    }
  }

  lemma Longer(log: seq<Step>, e: Step)
    requires Happens(log) && MayStep(WorldOf(log), e)
    ensures Happens(log + [e]) && WorldOf(log + [e]) == Next(WorldOf(log), e)
  {
    assert (log + [e])[..|log|] == log;
  }

  lemma {:induction false} NoneUsed(c: seq<Entry>, k: nat)
    requires k <= |c| && forall i :: 0 <= i < |c| ==> !c[i].inUse
    ensures Used(c, k) == 0
    decreases |c| - k
  {
    if k < |c| {
      NoneUsed(c, k + 1);
    }
  }
}
