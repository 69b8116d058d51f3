/** The calls that a controller has open for capifax, what capifax answers to its messages, and how
    both follow from what was said before. */
module Calls {
  const MAX_CONNECTIONS: nat := 8
  const INVALID := -1

  datatype State =
    | Disconnected | D_ConnectPending | D_Connected | B_ConnectPending | Connected
    | B_DisconnectPending | D_DisconnectPending

  // The controller's side: its open calls by PLCI, and the connection requests it has not answered

  datatype Call = Call(ncci: int, state: State, initiator: bool)

  datatype World = World(calls: map<int, Call>, dialling: set<int>)

  predicate IsPlci(p: int) {
    0 <= p < 0x1_0000
  }

  predicate IsNcci(n: int) {
    0 <= n < 0x1_0000_0000
  }

  /** The low word of an NCCI. */
  function PlciOf(ncci: int): int {
    ncci % 0x1_0000
  }

  predicate Full(w: World) {
    |w.calls| + |w.dialling| >= MAX_CONNECTIONS
  }

  /** The call that owns a logical connection. */
  predicate Owns(w: World, ncci: int) {
    IsNcci(ncci) && PlciOf(ncci) in w.calls && w.calls[PlciOf(ncci)].ncci == ncci
  }

  ghost predicate Sound(w: World) {
    forall p <- w.calls ::
      && IsPlci(p)
      && (w.calls[p].ncci == INVALID || (IsNcci(w.calls[p].ncci) && PlciOf(w.calls[p].ncci) == p))
      && (w.calls[p].state == Connected ==> w.calls[p].ncci != INVALID)
  }

  datatype Indication =
    | ConnectInd(plci: int)
    | ConnectActiveInd(plci: int)
    | ConnectB3Ind(ncci: int)
    | ConnectB3ActiveInd(ncci: int)
    | DisconnectB3Ind(ncci: int)
    | DisconnectInd(plci: int)

  datatype Confirmation =
    | ConnectConf(number: int, plci: int)
    | ConnectB3Conf(ncci: int)
    | DisconnectConf(plci: int)
    | DisconnectB3Conf(ncci: int)

  /** What the handlers send back besides the plain response to an indication. */
  datatype Request = Alert(plci: int) | Reject(plci: int) | ConnectB3Req(plci: int) | DisconnectReq(plci: int)

  /** What a controller that keeps to the protocol may indicate. */
  predicate MayIndicate(w: World, ind: Indication) {
    match ind
    case ConnectInd(p) => IsPlci(p)
    case ConnectActiveInd(p) => p in w.calls
    case ConnectB3Ind(n) => IsNcci(n) && PlciOf(n) in w.calls
    case ConnectB3ActiveInd(n) => Owns(w, n)
    case DisconnectB3Ind(n) => Owns(w, n)
    case DisconnectInd(p) => p in w.calls
  }

  /** What it may confirm. */
  predicate MayConfirm(w: World, conf: Confirmation, info: nat) {
    match conf
    case ConnectConf(m, p) => m in w.dialling && (info <= 0xff ==> IsPlci(p) && p !in w.calls)
    case ConnectB3Conf(n) => IsNcci(n) && PlciOf(n) in w.calls
    case DisconnectConf(p) => IsPlci(p)
    case DisconnectB3Conf(n) => IsNcci(n) && (info <= 0xff ==> Owns(w, n))
  }

  function Update(w: World, p: int, call: Call): World {
    w.(calls := w.calls[p := call])
  }

  function Indicated(w: World, ind: Indication): World
    requires MayIndicate(w, ind)
  {
    match ind
    case ConnectInd(p) =>
      if p in w.calls then Update(w, p, w.calls[p].(state := D_ConnectPending))
      else if Full(w) then w
      else Update(w, p, Call(INVALID, D_ConnectPending, false))
    case ConnectActiveInd(p) => Update(w, p, w.calls[p].(state := D_Connected))
    case ConnectB3Ind(n) => Update(w, PlciOf(n), w.calls[PlciOf(n)].(ncci := n, state := B_ConnectPending))
    case ConnectB3ActiveInd(n) => Update(w, PlciOf(n), Call(n, Connected, false))
    case DisconnectB3Ind(n) => Update(w, PlciOf(n), w.calls[PlciOf(n)].(ncci := INVALID, state := D_Connected))
    case DisconnectInd(p) => w.(calls := w.calls - {p})
  }

  function IndicationRequests(w: World, ind: Indication): seq<Request>
    requires MayIndicate(w, ind)
  {
    match ind
    case ConnectInd(p) => if p !in w.calls && Full(w) then [Reject(p)] else [Alert(p)]
    case ConnectActiveInd(p) => if w.calls[p].initiator then [ConnectB3Req(p)] else []
    case DisconnectB3Ind(n) => if w.calls[PlciOf(n)].initiator then [DisconnectReq(PlciOf(n))] else []
    case _ => []
  }

  function Confirmed(w: World, conf: Confirmation, info: nat): World
    requires MayConfirm(w, conf, info)
  {
    match conf
    case ConnectConf(m, p) =>
      if info > 0xff then w.(dialling := w.dialling - {m})
      else World(w.calls[p := Call(INVALID, D_ConnectPending, true)], w.dialling - {m})
    case ConnectB3Conf(n) =>
      if info > 0xff then w
      else Update(w, PlciOf(n), w.calls[PlciOf(n)].(ncci := n, state := B_ConnectPending))
    case DisconnectConf(p) =>
      if info > 0xff || p !in w.calls then w else Update(w, p, w.calls[p].(state := D_DisconnectPending))
    case DisconnectB3Conf(n) =>
      if info > 0xff then w else Update(w, PlciOf(n), Call(n, B_DisconnectPending, true))
  }

  function ConfirmationRequests(conf: Confirmation, info: nat): seq<Request> {
    if conf.ConnectB3Conf? && info > 0xff then [DisconnectReq(PlciOf(conf.ncci))] else []
  }

  lemma IndicatedSound(w: World, ind: Indication)
    requires Sound(w) && MayIndicate(w, ind)
    ensures Sound(Indicated(w, ind))
  {
  }

  lemma ConfirmedSound(w: World, conf: Confirmation, info: nat)
    requires Sound(w) && MayConfirm(w, conf, info)
    ensures Sound(Confirmed(w, conf, info))
  {
  }

  // What was said so far

  /** One exchange: a CONNECT_REQ sent under a message number, or a message of the controller with
      the requests that answered it. */
  datatype Step =
    | Dial(number: int)
    | Indicate(ind: Indication, requests: seq<Request>)
    | Confirm(conf: Confirmation, info: nat, requests: seq<Request>)

  /** The exchange can take place, and its requests are the ones that are sent. */
  predicate MayStep(w: World, e: Step) {
    match e
    case Dial(m) => m !in w.dialling
    case Indicate(ind, requests) => MayIndicate(w, ind) && requests == IndicationRequests(w, ind)
    case Confirm(conf, info, requests) => MayConfirm(w, conf, info) && requests == ConfirmationRequests(conf, info)
  }

  function Next(w: World, e: Step): World
    requires MayStep(w, e)
  {
    match e
    case Dial(m) => w.(dialling := w.dialling + {m})
    case Indicate(ind, _) => Indicated(w, ind)
    case Confirm(conf, info, _) => Confirmed(w, conf, info)
  }

  /** A run: the exchanges `log` one after the other, from the start. */
  predicate Happens(log: seq<Step>)
    decreases |log|, 0
  {
    log == [] || (Happens(log[..|log| - 1]) && MayStep(WorldOf(log[..|log| - 1]), log[|log| - 1]))
  }

  /** Where they lead. */
  function WorldOf(log: seq<Step>): World
    requires Happens(log)
    decreases |log|, 1
  {
    if log == [] then World(map[], {})
    else Next(WorldOf(log[..|log| - 1]), log[|log| - 1])
  }

  /** The exchange opens the call `p`, or offers it once more. */
  predicate Opens(e: Step, p: int) {
    || (e.Indicate? && e.ind == ConnectInd(p) && e.requests != [Reject(p)])
    || (e.Confirm? && e.conf.ConnectConf? && e.conf.plci == p && e.info <= 0xff)
  }

  /** A call is open from the exchange that opens it to the DISCONNECT_IND. */
  predicate IsOpen(log: seq<Step>, p: int)
    decreases |log|
  {
    log != [] &&
    var before, e := log[..|log| - 1], log[|log| - 1];
    Opens(e, p) || (IsOpen(before, p) && !(e.Indicate? && e.ind == DisconnectInd(p)))
  }

  datatype Side = Ours | Theirs

  /** Who opened the call `p`: it is ours if it is the answer to a CONNECT_REQ. */
  function Opener(log: seq<Step>, p: int): Side
    decreases |log|
  {
    if log == [] then Theirs
    else
      var before, e := log[..|log| - 1], log[|log| - 1];
      if Opens(e, p) && e.Confirm? then Ours
      else if Opens(e, p) && !IsOpen(before, p) then Theirs
      else Opener(before, p)
  }

  /** A logical connection of the call `p` comes up, or the controller takes our wish to clear it. */
  predicate ComesUp(e: Step, p: int) {
    e.Indicate? && e.ind.ConnectB3ActiveInd? && e.ind.ncci % 0x1_0000 == p
  }

  predicate WeClear(e: Step, p: int) {
    e.Confirm? && e.conf.DisconnectB3Conf? && e.conf.ncci % 0x1_0000 == p && e.info <= 0xff
  }

  /** Since the call was opened no logical connection has come up, nor has one been cleared by us. */
  predicate Untouched(log: seq<Step>, p: int)
    decreases |log|
  {
    log == [] ||
    var before, e := log[..|log| - 1], log[|log| - 1];
    if Opens(e, p) && (e.Confirm? || !IsOpen(before, p)) then true
    else !ComesUp(e, p) && !WeClear(e, p) && Untouched(before, p)
  }

  /** We asked to clear the logical connection that came up last. */
  predicate AskedToClear(log: seq<Step>, p: int)
    decreases |log|
  {
    log != [] &&
    var before, e := log[..|log| - 1], log[|log| - 1];
    WeClear(e, p) || (!ComesUp(e, p) && AskedToClear(before, p))
  }

  /** Whether the next step is ours: it is in a call we opened until a logical connection has come up,
      and after that once we have asked to clear it. */
  predicate OurTurn(log: seq<Step>, p: int) {
    if Untouched(log, p) then Opener(log, p) == Ours else AskedToClear(log, p)
  }

  datatype Option<T> = None | Some(value: T)

  /** The state that a message about the call `p` leaves it in. */
  function NewState(e: Step, p: int): Option<State> {
    match e
    case Dial(_) => None
    case Indicate(ConnectInd(q), requests) => if q == p && requests != [Reject(p)] then Some(D_ConnectPending) else None
    case Indicate(ConnectActiveInd(q), _) => if q == p then Some(D_Connected) else None
    case Indicate(ConnectB3Ind(n), _) => if n % 0x1_0000 == p then Some(B_ConnectPending) else None
    case Indicate(ConnectB3ActiveInd(n), _) => if n % 0x1_0000 == p then Some(Connected) else None
    case Indicate(DisconnectB3Ind(n), _) => if n % 0x1_0000 == p then Some(D_Connected) else None
    case Indicate(DisconnectInd(_), _) => None
    case Confirm(conf, info, _) =>
      if info > 0xff then None
      else match conf
        case ConnectConf(_, q) => if q == p then Some(D_ConnectPending) else None
        case ConnectB3Conf(n) => if n % 0x1_0000 == p then Some(B_ConnectPending) else None
        case DisconnectConf(q) => if q == p then Some(D_DisconnectPending) else None
        case DisconnectB3Conf(n) => if n % 0x1_0000 == p then Some(B_DisconnectPending) else None
  }

  /** The state after the last message about the call. */
  function LastState(log: seq<Step>, p: int): State
    decreases |log|
  {
    if log == [] then Disconnected
    else match NewState(log[|log| - 1], p)
      case Some(state) => state
      case None => LastState(log[..|log| - 1], p)
  }

  /** The NCCI that was last given to the call and not taken back. */
  function LastNcci(log: seq<Step>, p: int): int
    decreases |log|
  {
    if log == [] then INVALID
    else
      var before, e := log[..|log| - 1], log[|log| - 1];
      if Opens(e, p) && (e.Confirm? || !IsOpen(before, p)) then INVALID
      else if e.Indicate? && e.ind.ConnectB3Ind? && e.ind.ncci % 0x1_0000 == p then e.ind.ncci
      else if e.Indicate? && e.ind.DisconnectB3Ind? && e.ind.ncci % 0x1_0000 == p then INVALID
      else if e.Confirm? && e.conf.ConnectB3Conf? && e.info <= 0xff && e.conf.ncci % 0x1_0000 == p then e.conf.ncci
      else LastNcci(before, p)
  }

  /** The controller's calls are what was said about them: which are open, the NCCI they have, the state
      the last message left them in, and whose turn it is. */
  ghost predicate Follows(log: seq<Step>, w: World) {
    forall p :: FollowsFor(log, w, p)
  }

  predicate FollowsFor(log: seq<Step>, w: World, p: int) {
    && (p in w.calls <==> IsOpen(log, p))
    && (p in w.calls ==> w.calls[p] == Call(LastNcci(log, p), LastState(log, p), OurTurn(log, p)))
  }

  /** In every run. */
  lemma {:induction false} WorldIsHistory(log: seq<Step>)
    requires Happens(log)
    ensures Follows(log, WorldOf(log))
    decreases |log|
  {
    if log != [] {
      var before, e := log[..|log| - 1], log[|log| - 1];
      WorldIsHistory(before);
      assert log == before + [e];
      hide Follows, MayStep, Next;
      OneStep(before, WorldOf(before), e);
    }
  }

  lemma OneStep(log: seq<Step>, w: World, e: Step)
    requires Follows(log, w) && MayStep(w, e)
    ensures Follows(log + [e], Next(w, e))
  {
    forall p
      ensures FollowsFor(log + [e], Next(w, e), p)
    {
      assert FollowsFor(log, w, p);
      StepForCall(log, w, e, p);
    }
  }

  lemma StepForCall(log: seq<Step>, w: World, e: Step, p: int)
    requires FollowsFor(log, w, p) && MayStep(w, e)
    ensures FollowsFor(log + [e], Next(w, e), p)
  {
    hide *;
    match e
    case Dial(m) => DialStep(log, w, m, p);
    case Indicate(ConnectInd(q), r) => ConnectIndStep(log, w, q, r, p);
    case Indicate(ConnectActiveInd(q), r) => ConnectActiveIndStep(log, w, q, r, p);
    case Indicate(ConnectB3Ind(n), r) => ConnectB3IndStep(log, w, n, r, p);
    case Indicate(ConnectB3ActiveInd(n), r) => ConnectB3ActiveIndStep(log, w, n, r, p);
    case Indicate(DisconnectB3Ind(n), r) => DisconnectB3IndStep(log, w, n, r, p);
    case Indicate(DisconnectInd(q), r) => DisconnectIndStep(log, w, q, r, p);
    case Confirm(conf, info, r) => ConfirmStep(log, w, conf, info, r, p);
  }

  lemma LastOf(log: seq<Step>, e: Step)
    ensures (log + [e])[..|log + [e]| - 1] == log && (log + [e])[|log + [e]| - 1] == e
  {
  }

  lemma DialStep(log: seq<Step>, w: World, m: int, p: int)
    requires FollowsFor(log, w, p) && MayStep(w, Dial(m))
    ensures FollowsFor(log + [Dial(m)], Next(w, Dial(m)), p)
  {
    LastOf(log, Dial(m));
  }

  lemma ConnectIndStep(log: seq<Step>, w: World, q: int, r: seq<Request>, p: int)
    requires FollowsFor(log, w, p) && MayStep(w, Indicate(ConnectInd(q), r))
    ensures FollowsFor(log + [Indicate(ConnectInd(q), r)], Next(w, Indicate(ConnectInd(q), r)), p)
  {
    LastOf(log, Indicate(ConnectInd(q), r));
  }

  lemma ConnectActiveIndStep(log: seq<Step>, w: World, q: int, r: seq<Request>, p: int)
    requires FollowsFor(log, w, p) && MayStep(w, Indicate(ConnectActiveInd(q), r))
    ensures FollowsFor(log + [Indicate(ConnectActiveInd(q), r)], Next(w, Indicate(ConnectActiveInd(q), r)), p)
  {
    LastOf(log, Indicate(ConnectActiveInd(q), r));
  }

  lemma ConnectB3IndStep(log: seq<Step>, w: World, n: int, r: seq<Request>, p: int)
    requires FollowsFor(log, w, p) && MayStep(w, Indicate(ConnectB3Ind(n), r))
    ensures FollowsFor(log + [Indicate(ConnectB3Ind(n), r)], Next(w, Indicate(ConnectB3Ind(n), r)), p)
  {
    LastOf(log, Indicate(ConnectB3Ind(n), r));
  }

  lemma ConnectB3ActiveIndStep(log: seq<Step>, w: World, n: int, r: seq<Request>, p: int)
    requires FollowsFor(log, w, p) && MayStep(w, Indicate(ConnectB3ActiveInd(n), r))
    ensures FollowsFor(log + [Indicate(ConnectB3ActiveInd(n), r)], Next(w, Indicate(ConnectB3ActiveInd(n), r)), p)
  {
    LastOf(log, Indicate(ConnectB3ActiveInd(n), r));
  }

  lemma DisconnectB3IndStep(log: seq<Step>, w: World, n: int, r: seq<Request>, p: int)
    requires FollowsFor(log, w, p) && MayStep(w, Indicate(DisconnectB3Ind(n), r))
    ensures FollowsFor(log + [Indicate(DisconnectB3Ind(n), r)], Next(w, Indicate(DisconnectB3Ind(n), r)), p)
  {
    LastOf(log, Indicate(DisconnectB3Ind(n), r));
  }

  lemma DisconnectIndStep(log: seq<Step>, w: World, q: int, r: seq<Request>, p: int)
    requires FollowsFor(log, w, p) && MayStep(w, Indicate(DisconnectInd(q), r))
    ensures FollowsFor(log + [Indicate(DisconnectInd(q), r)], Next(w, Indicate(DisconnectInd(q), r)), p)
  {
    LastOf(log, Indicate(DisconnectInd(q), r));
  }

  lemma ConfirmStep(log: seq<Step>, w: World, conf: Confirmation, info: nat, r: seq<Request>, p: int)
    requires FollowsFor(log, w, p) && MayStep(w, Confirm(conf, info, r))
    ensures FollowsFor(log + [Confirm(conf, info, r)], Next(w, Confirm(conf, info, r)), p)
  {
    LastOf(log, Confirm(conf, info, r));
  }

  // What is answered

  /** What the requests that answer an indication are, told from what was said before. */
  ghost predicate Answered(log: seq<Step>, ind: Indication, requests: seq<Request>) {
    match ind
    case ConnectInd(p) => requests == [Alert(p)] || (requests == [Reject(p)] && !IsOpen(log, p))
    case ConnectActiveInd(p) => requests == if OurTurn(log, p) then [ConnectB3Req(p)] else []
    case DisconnectB3Ind(n) =>
      requests == if OurTurn(log, n % 0x1_0000) then [DisconnectReq(n % 0x1_0000)] else []
    case _ => requests == []
  }

  lemma AnswersFollow(log: seq<Step>, ind: Indication)
    requires Happens(log) && MayIndicate(WorldOf(log), ind)
    ensures Answered(log, ind, IndicationRequests(WorldOf(log), ind))
    ensures ind.ConnectInd? ==>
              var w := WorldOf(log);
              IndicationRequests(w, ind) == [Reject(ind.plci)] <==>
                !IsOpen(log, ind.plci) && |w.calls| + |w.dialling| >= 8
  {
    WorldIsHistory(log);
    var p := match ind
      case ConnectInd(p) => p
      case ConnectActiveInd(p) => p
      case DisconnectInd(p) => p
      case ConnectB3Ind(n) => n % 0x1_0000
      case ConnectB3ActiveInd(n) => n % 0x1_0000
      case DisconnectB3Ind(n) => n % 0x1_0000;
    hide Happens, WorldOf, IsOpen, OurTurn, LastState, LastNcci;
    assert FollowsFor(log, WorldOf(log), p);
  }

  lemma {:induction false} Earlier(log: seq<Step>, i: nat)
    requires Happens(log) && i < |log|
    ensures Happens(log[..i]) && MayStep(WorldOf(log[..i]), log[i])
    decreases |log|
  {
    if i < |log| - 1 {
      assert log[..|log| - 1][..i] == log[..i];
      Earlier(log[..|log| - 1], i);
    }
  }

  /** In every run: the activation of a call that we opened is answered by one CONNECT_B3_REQ, that of
      an incoming call by none, unless a logical connection was up before. */
  lemma Activation(log: seq<Step>, i: nat, p: int)
    requires Happens(log) && i < |log| && log[i].Indicate? && log[i].ind == ConnectActiveInd(p)
    requires Untouched(log[..i], p)
    ensures log[i].requests == if Opener(log[..i], p) == Ours then [ConnectB3Req(p)] else []
  {
    Earlier(log, i);
    AnswersFollow(log[..i], log[i].ind);
  }

  /** In every run: when a logical connection that was up ends, the call is cleared by a DISCONNECT_REQ
      if and only if we have asked to clear the connection. */
  lemma Clearing(log: seq<Step>, i: nat, n: int)
    requires Happens(log) && i < |log| && log[i].Indicate? && log[i].ind == DisconnectB3Ind(n)
    requires !Untouched(log[..i], n % 0x1_0000)
    ensures log[i].requests
         == if AskedToClear(log[..i], n % 0x1_0000) then [DisconnectReq(n % 0x1_0000)] else []
  {
    Earlier(log, i);
    AnswersFollow(log[..i], log[i].ind);
  }

  /** In every run, a request that is not an answer to an indication is sent when a CONNECT_B3_REQ
      fails, and clears the call. */
  lemma Failing(log: seq<Step>, i: nat)
    requires Happens(log) && i < |log| && log[i].Confirm?
    ensures log[i].requests
         == if log[i].conf.ConnectB3Conf? && log[i].info > 0xff
            then [DisconnectReq(log[i].conf.ncci % 0x1_0000)] else []
  {
    Earlier(log, i);
  }
}
