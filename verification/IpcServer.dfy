/** The handle table of nxExt's IPC server: slot 0 is the service's port, the sessions follow, and
    closing one moves the others down. */
module IpcServer {

  const MAX_WAIT_OBJECTS: nat := 0x40

  // A result: success, the ones the server makes or looks for, or any other failure.
  datatype Rc = Success | TimedOut | BadInput | OutOfMemory | NotFound | Failure(code: nat)

  type Handle = nat

  // What the kernel says of a request: the results of receiving, parsing and replying, and
  // whether the client asks to close.
  datatype Request = Request(receiveRc: Rc, parseRc: Rc, close: bool, replyRc: Rc)

  // What ipcServerProcess waits for: an error, a slot, and then what happens there.
  datatype Event =
    | WaitFailed(rc: Rc)
    | NoSlot(slot: int)
    | NewSession(acceptRc: Rc, session: Handle)
    | SessionRequest(index: nat, request: Request)

  // The table as a value, with all handles that were accepted and closed so far.
  datatype Table = Table(handles: seq<Handle>, max: nat, accepted: seq<Handle>, closed: seq<Handle>)

  function Without<T>(s: seq<T>, k: nat): seq<T>
    requires k < |s|
  {
    s[..k] + s[k + 1..]
  }

  // Whether a request ends its session, and what the call returns.
  function RequestRc(r: Request): Rc {
    if r.receiveRc != Success then r.receiveRc
    else if r.parseRc != Success then r.parseRc
    else if r.replyRc == TimedOut then Success
    else r.replyRc
  }

  predicate EndsSession(r: Request) {
    RequestRc(r) != Success || (r.receiveRc == Success && r.parseRc == Success && r.close)
  }

  // The event is one the wait on this table can report.
  predicate Possible(t: Table, e: Event) {
    match e
    case WaitFailed(rc) => rc != Success
    case NoSlot(slot) => slot < 0 || slot >= |t.handles|
    case NewSession(_, session) => session !in t.handles
    case SessionRequest(index, _) => 0 < index < |t.handles|
  }

  function After(t: Table, e: Event): Table
    requires Possible(t, e)
  {
    match e
    case WaitFailed(_) => t
    case NoSlot(_) => t
    case NewSession(acceptRc, session) =>
      if acceptRc != Success then t
      else if |t.handles| >= t.max then t.(accepted := t.accepted + [session], closed := t.closed + [session])
      else t.(accepted := t.accepted + [session], handles := t.handles + [session])
    case SessionRequest(index, request) =>
      if EndsSession(request) then t.(handles := Without(t.handles, index), closed := t.closed + [t.handles[index]])
      else t
  }

  function ResultOf(t: Table, e: Event): Rc {
    match e
    case WaitFailed(rc) => rc
    case NoSlot(_) => NotFound
    case NewSession(acceptRc, _) =>
      if acceptRc != Success then acceptRc else if |t.handles| >= t.max then OutOfMemory else Success
    case SessionRequest(_, request) => RequestRc(request)
  }

  class Server {
    const handles: array<Handle>
    var max: nat
    var count: nat
    ghost var accepted: seq<Handle>
    // The handles svcCloseHandle was called with.
    var closed: seq<Handle>

    ghost predicate Valid()
      reads this
    {
      handles.Length == MAX_WAIT_OBJECTS && count <= max <= MAX_WAIT_OBJECTS
    }

    ghost function State(): Table
      requires Valid()
      reads this, handles
    {
      Table(handles[..count], max, accepted, closed)
    }

    constructor ()
      ensures Valid() && count == 0 && accepted == [] && closed == []
    {
      handles := new Handle[MAX_WAIT_OBJECTS];
      max, count, accepted, closed := 0, 0, [], [];
    }

    // registerRc and port are what smRegisterService answers.
    method Init(maxSessions: nat, registerRc: Rc, port: Handle) returns (rc: Rc)
      requires Valid() && count == 0 && accepted == [] && closed == []
      modifies this, handles
      ensures Valid() && accepted == [] && closed == []
      ensures rc == Success <==> 1 <= maxSessions < MAX_WAIT_OBJECTS && registerRc == Success
      ensures rc == Success ==> State() == Table([port], maxSessions + 1, [], [])
      ensures rc != Success ==> count == 0
    {
      if maxSessions < 1 || maxSessions > MAX_WAIT_OBJECTS - 1 { return BadInput; }
      max := maxSessions + 1;
      count := 0;
      rc := registerRc;
      if rc == Success {
        handles[0] := port;
        count := 1;
      }
    }

    method CloseHandle(h: Handle)
      modifies this`closed
      ensures closed == old(closed) + [h]
    {
      closed := closed + [h];
    }

    /** ipcServerExit closes whatever is still in the table, in order. */
    method Exit()
      requires Valid()
      modifies this`count, this`closed
      ensures Valid() && count == 0 && closed == old(closed) + old(State().handles)
    {
      var i := 0;
      while i < count
        invariant Valid() && count == old(count) && i <= count
        invariant closed == old(closed) + handles[..i]
      {
        CloseHandle(handles[i]);
        i := i + 1;
      }
      count := 0;
    }

    method AddSession(session: Handle) returns (rc: Rc)
      requires Valid()
      modifies this`count, handles
      ensures Valid() && rc == (if old(count) >= max then OutOfMemory else Success)
      ensures handles[..count] == if rc == Success then old(handles[..count]) + [session] else old(handles[..count])
    {
      if count >= max { return OutOfMemory; }
      handles[count] := session;
      count := count + 1;
      rc := Success;
    }

    method DeleteSession(index: nat) returns (rc: Rc)
      requires Valid()
      modifies this`count, this`closed, handles
      ensures Valid() && (rc == Success <==> 0 < index < old(count))
      ensures rc != Success ==> handles[..count] == old(handles[..count]) && closed == old(closed)
      ensures rc == Success ==>
                handles[..count] == Without(old(handles[..count]), index)
                && closed == old(closed) + [old(handles[index])]
    {
      if index == 0 || index >= count { return BadInput; }
      CloseHandle(handles[index]);
      var j := index;
      while j < count - 1
        invariant Valid() && index <= j < count == old(count) && max == old(max)
        invariant closed == old(closed) + [old(handles[index])]
        invariant forall k :: 0 <= k < index || j < k < count ==> handles[k] == old(handles[k])
        invariant forall k :: index <= k < j ==> handles[k] == old(handles[k + 1])
      {
        handles[j] := handles[j + 1];
        j := j + 1;
      }
      count := count - 1;
      rc := Success;
    }

    method ProcessNewSession(acceptRc: Rc, session: Handle) returns (rc: Rc)
      requires Valid() && Possible(State(), NewSession(acceptRc, session))
      modifies this, handles
      ensures Valid() && State() == After(old(State()), NewSession(acceptRc, session))
      ensures rc == ResultOf(old(State()), NewSession(acceptRc, session))
    {
      rc := acceptRc;
      if rc == Success {
        accepted := accepted + [session];
        rc := AddSession(session);
        if rc != Success { CloseHandle(session); }
      }
    }

    method ProcessSession(index: nat, r: Request) returns (rc: Rc)
      requires Valid() && 0 < index < count
      modifies this, handles
      ensures Valid() && State() == After(old(State()), SessionRequest(index, r)) && rc == RequestRc(r)
      ensures Ends(r) ==> LosesOnly(old(handles[..count]), handles[..count], index)
                          && closed == old(closed) + [old(handles[index])]
      ensures !Ends(r) ==> handles[..count] == old(handles[..count]) && closed == old(closed)
    {
      var close := false;
      rc := r.receiveRc;
      if rc == Success { rc := r.parseRc; }
      if rc == Success {
        close := r.close;
        rc := r.replyRc;
        if rc == TimedOut { rc := Success; }
      }
      if rc != Success || close {
        var deleted := DeleteSession(index);
      }
    }

    /** ipcServerProcess: one event on the table. */
    method Process(e: Event) returns (rc: Rc)
      requires Valid() && Possible(State(), e)
      modifies this, handles
      ensures Valid() && State() == After(old(State()), e) && rc == ResultOf(old(State()), e)
      ensures e.SessionRequest? ==>
                if Ends(e.request) then
                  && LosesOnly(old(handles[..count]), handles[..count], e.index)
                  && closed == old(closed) + [old(handles[e.index])]
                else handles[..count] == old(handles[..count]) && closed == old(closed)
      ensures e.NewSession? && e.acceptRc == Success ==>
                if old(count) < max then
                  && handles[..count] == old(handles[..count]) + [e.session] && closed == old(closed)
                else handles[..count] == old(handles[..count]) && closed == old(closed) + [e.session]
      ensures !e.SessionRequest? && !(e.NewSession? && e.acceptRc == Success) ==>
                handles[..count] == old(handles[..count]) && closed == old(closed)
    {
      match e
      case WaitFailed(waitRc) => rc := waitRc;
      case NoSlot(_) => rc := NotFound;
      case NewSession(acceptRc, session) => rc := ProcessNewSession(acceptRc, session);
      case SessionRequest(index, request) => rc := ProcessSession(index, request);
    }
  }

  // ----- what an event does to each handle ---------------------------------------------------------

  // Receiving, parsing or replying fails, other than by a timeout of the reply, or the client asks
  // to close.
  predicate Ends(r: Request) {
    r.receiveRc != Success || r.parseRc != Success || (r.replyRc != Success && r.replyRc != TimedOut) || r.close
  }

  // b is a without its k-th handle; the others are in order.
  predicate LosesOnly(a: seq<Handle>, b: seq<Handle>, k: nat) {
    && k < |a| == |b| + 1
    && (forall i :: 0 <= i < k ==> b[i] == a[i])
    && (forall i :: k < i < |a| ==> b[i - 1] == a[i])
  }

  /** A request closes its own session if it ends it, and no other; if not, nothing changes. */
  lemma RequestEndsItsOwn(t: Table, index: nat, r: Request)
    requires 0 < index < |t.handles|
    ensures var n := After(t, SessionRequest(index, r));
            && (Ends(r) ==> LosesOnly(t.handles, n.handles, index) && n.closed == t.closed + [t.handles[index]])
            && (!Ends(r) ==> n.handles == t.handles && n.closed == t.closed)
            && n.accepted == t.accepted && n.max == t.max
  {
  }

  // ----- whole runs ------------------------------------------------------------------------------

  ghost predicate PossibleRun(t: Table, events: seq<Event>)
    decreases |events|, 0
  {
    events == [] ||
    (PossibleRun(t, events[..|events| - 1])
     && Possible(Run(t, events[..|events| - 1]), events[|events| - 1]))
  }

  ghost function Run(t: Table, events: seq<Event>): Table
    requires PossibleRun(t, events)
    decreases |events|, 1
  {
    if events == [] then t
    else After(Run(t, events[..|events| - 1]), events[|events| - 1])
  }

  // a is what is left of b when some of it is taken out.
  predicate IsPartOf(a: seq<Handle>, b: seq<Handle>)
    decreases |b|
  {
    if a == [] then true
    else if b == [] then false
    else if a[|a| - 1] == b[|b| - 1] && IsPartOf(a[..|a| - 1], b[..|b| - 1]) then true
    else IsPartOf(a, b[..|b| - 1])
  }

  lemma PartOfMore(a: seq<Handle>, b: seq<Handle>, h: Handle)
    requires IsPartOf(a, b)
    ensures IsPartOf(a, b + [h]) && IsPartOf(a + [h], b + [h])
  {
    assert (b + [h])[..|b|] == b && (a + [h])[..|a|] == a;
  }

  lemma {:induction false} PartWithout(a: seq<Handle>, b: seq<Handle>, k: nat)
    requires IsPartOf(a, b) && k < |a|
    ensures IsPartOf(Without(a, k), b)
    decreases |b|
  {
    var n, m := |a| - 1, |b| - 1;
    if a[n] == b[m] && IsPartOf(a[..n], b[..m]) {
      if k == n {
        assert Without(a, k) == a[..n];
        PartOfMore(a[..n], b[..m], b[m]);
        assert b[..m] + [b[m]] == b;
      } else {
        PartWithout(a[..n], b[..m], k);
        assert Without(a, k) == Without(a[..n], k) + [b[m]];
        PartOfMore(Without(a[..n], k), b[..m], b[m]);
        assert b[..m] + [b[m]] == b;
      }
    } else {
      PartWithout(a, b[..m], k);
      PartOfMore(Without(a, k), b[..m], b[m]);
      assert b[..m] + [b[m]] == b;
    }
  }

  // No handle is lost or closed twice.
  ghost predicate Conserved(t: Table, port: Handle) {
    multiset(t.handles) + multiset(t.closed) == multiset([port] + t.accepted)
  }

  // No handle is in two slots.  One that was closed may be given out again.
  ghost predicate Distinct(t: Table) {
    forall i, j :: 0 <= i < j < |t.handles| ==> t.handles[i] != t.handles[j]
  }

  // The port is in slot 0, the table is not overfull, the sessions are in the order in which they
  // were accepted, and every handle is accounted for.
  ghost predicate Sound(t: Table, port: Handle) {
    && 1 <= |t.handles| <= t.max
    && t.handles[0] == port
    && IsPartOf(t.handles[1..], t.accepted)
    && Conserved(t, port)
    && Distinct(t)
  }

  lemma WithoutMultiset(s: seq<Handle>, k: nat)
    requires k < |s|
    ensures multiset(Without(s, k)) + multiset{s[k]} == multiset(s)
  {
    assert s == s[..k] + [s[k]] + s[k + 1..];
  }

  lemma StepIsSound(t: Table, e: Event, port: Handle)
    requires Sound(t, port) && Possible(t, e)
    ensures Sound(After(t, e), port) && After(t, e).max == t.max
  {
    match e
    case WaitFailed(_) =>
    case NoSlot(_) =>
    case NewSession(acceptRc, session) => AcceptIsSound(t, session, port);
    case SessionRequest(index, request) => DeleteIsSound(t, index, port);
  }

  lemma AcceptIsSound(t: Table, session: Handle, port: Handle)
    requires Sound(t, port) && session !in t.handles
    ensures Sound(After(t, NewSession(Success, session)), port)
  {
    hide Conserved, IsPartOf, Distinct;
    PartOfMore(t.handles[1..], t.accepted, session);
    assert (t.handles + [session])[1..] == t.handles[1..] + [session];
    AcceptConserves(t, session, port);
    AcceptIsDistinct(t, session);
  }

  lemma AcceptIsDistinct(t: Table, session: Handle)
    requires Distinct(t) && session !in t.handles
    ensures Distinct(After(t, NewSession(Success, session)))
  {
  }

  lemma MoreOf(s: seq<Handle>, h: Handle)
    ensures multiset(s + [h]) == multiset(s) + multiset{h}
  {
  }

  lemma MoreOnBothSides(a: multiset<Handle>, b: multiset<Handle>, c: multiset<Handle>, x: multiset<Handle>)
    requires a + b == c
    ensures (a + x) + b == c + x && a + (b + x) == c + x
  {
  }

  lemma AcceptConserves(t: Table, session: Handle, port: Handle)
    requires Conserved(t, port) && session !in t.handles
    ensures Conserved(After(t, NewSession(Success, session)), port)
  {
    var all := [port] + t.accepted;
    assert [port] + (t.accepted + [session]) == all + [session];
    MoreOf(all, session);
    MoreOf(t.handles, session);
    MoreOf(t.closed, session);
    MoreOnBothSides(multiset(t.handles), multiset(t.closed), multiset(all), multiset{session});
  }

  lemma DeleteIsSound(t: Table, index: nat, port: Handle)
    requires Sound(t, port) && 0 < index < |t.handles|
    ensures Sound(t.(handles := Without(t.handles, index), closed := t.closed + [t.handles[index]]), port)
  {
    hide IsPartOf, Conserved, Distinct;
    PartWithout(t.handles[1..], t.accepted, index - 1);
    WithoutRest(t.handles, index);
    DeleteConserves(t, index, port);
    DeleteIsDistinct(t, index);
  }

  lemma DeleteIsDistinct(t: Table, index: nat)
    requires Distinct(t) && index < |t.handles|
    ensures Distinct(t.(handles := Without(t.handles, index), closed := t.closed + [t.handles[index]]))
  {
  }

  lemma WithoutRest(s: seq<Handle>, index: nat)
    requires 0 < index < |s|
    ensures Without(s, index)[1..] == Without(s[1..], index - 1)
  {
  }

  lemma DeleteConserves(t: Table, index: nat, port: Handle)
    requires Conserved(t, port) && index < |t.handles|
    ensures Conserved(t.(handles := Without(t.handles, index), closed := t.closed + [t.handles[index]]), port)
  {
    hide Without;
    WithoutMultiset(t.handles, index);
    assert multiset(t.closed + [t.handles[index]]) == multiset(t.closed) + multiset{t.handles[index]};
  }

  /** Over every run from a fresh table: slot 0 stays the port, the table keeps to its size, the
      sessions stay in order, no handle is in two slots, and what was accepted is in the table or was
      closed, as often as it was given out. */
  lemma {:induction false} RunIsSound(port: Handle, max: nat, events: seq<Event>)
    requires max >= 1 && PossibleRun(Table([port], max, [], []), events)
    ensures var t := Run(Table([port], max, [], []), events);
            Sound(t, port) && t.max == max
  {
    hide Sound, Possible, After;
    var start := Table([port], max, [], []);
    if events == [] {
      FreshIsSound(port, max);
    } else {
      var n := |events| - 1;
      RunIsSound(port, max, events[..n]);
      StepIsSound(Run(start, events[..n]), events[n], port);
    }
  }

  lemma FreshIsSound(port: Handle, max: nat)
    requires max >= 1
    ensures Sound(Table([port], max, [], []), port)
  {
    assert [port] + [] == [port];
    assert [port][1..] == [];
  }

  /** In a sound table a handle is open in at most one slot, and however often it was given out, it
      was closed each time but for the one that is still open. */
  lemma OnePlace(t: Table, port: Handle, h: Handle)
    requires Sound(t, port) && h != port
    ensures multiset(t.handles)[h] == if h in t.handles then 1 else 0
    ensures multiset(t.closed)[h] + multiset(t.handles)[h] == multiset(t.accepted)[h]
  {
    DistinctCount(t.handles, h);
    assert (multiset(t.handles) + multiset(t.closed))[h] == multiset([port] + t.accepted)[h];
  }

  lemma {:induction false} DistinctCount(s: seq<Handle>, h: Handle)
    requires forall i, j :: 0 <= i < j < |s| ==> s[i] != s[j]
    ensures multiset(s)[h] == if h in s then 1 else 0
  {
    if s != [] {
      var n := |s| - 1;
      DistinctCount(s[..n], h);
      assert s[..n] + [s[n]] == s;
    }
  }

  /** After ipcServerExit the port and every accepted handle have been closed, each once. */
  lemma EverythingIsClosed(t: Table, port: Handle)
    requires Sound(t, port)
    ensures multiset(t.closed + t.handles) == multiset([port] + t.accepted)
  {
    assert multiset(t.closed + t.handles) == multiset(t.closed) + multiset(t.handles);
  }

  // ----- how a session leaves the table ------------------------------------------------------------

  // The k-th event of the run is a request of the session h that ends it.
  ghost predicate EndedBy(t: Table, events: seq<Event>, k: nat, h: Handle) {
    && k < |events| && PossibleRun(t, events[..k])
    && match events[k]
       case SessionRequest(index, r) =>
         var handles := Run(t, events[..k]).handles;
         index < |handles| && handles[index] == h && Ends(r)
       case _ => false
  }

  predicate GivenOut(e: Event, h: Handle) {
    e.NewSession? && e.session == h
  }

  lemma StepIsDistinct(t: Table, e: Event)
    requires Possible(t, e) && Distinct(t)
    ensures Distinct(After(t, e))
  {
  }

  // One event takes a handle out of the table just when it is a request that ends that session.
  lemma StepEnds(t: Table, e: Event, h: Handle)
    requires Possible(t, e) && Distinct(t) && h in t.handles
    ensures h !in After(t, e).handles <==> e.SessionRequest? && t.handles[e.index] == h && Ends(e.request)
  {
    match e
    case SessionRequest(index, r) =>
      RequestEndsItsOwn(t, index, r);
      var k :| 0 <= k < |t.handles| && t.handles[k] == h;
      if k < index { assert Without(t.handles, index)[k] == h; }
      if k > index { assert Without(t.handles, index)[k - 1] == h; }
    case _ =>
  }

  // A handle that is not given out does not come back.
  lemma StaysOut(t: Table, e: Event, h: Handle)
    requires Possible(t, e) && h !in t.handles && !GivenOut(e, h)
    ensures h !in After(t, e).handles
  {
  }

  /** Over every run: a session in the table, whose handle is not given out again, is out of it at
      the end if and only if one of its own requests ended it. */
  lemma {:induction false} LeavesByItsOwn(t: Table, events: seq<Event>, h: Handle)
    requires PossibleRun(t, events) && Distinct(t) && h in t.handles
    requires forall e :: e in events ==> !GivenOut(e, h)
    ensures Distinct(Run(t, events))
    ensures h !in Run(t, events).handles <==> exists k :: EndedBy(t, events, k, h)
  {
    hide Distinct, After, GivenOut, Ends;
    if events != [] {
      var n := |events| - 1;
      var before := events[..n];
      LeavesByItsOwn(t, before, h);
      var u := Run(t, before);
      StepIsDistinct(u, events[n]);
      forall k: nat | k < n ensures EndedBy(t, events, k, h) == EndedBy(t, before, k, h) {
        assert events[..k] == before[..k];
      }
      if h in u.handles {
        StepEnds(u, events[n], h);
        assert EndedBy(t, events, n, h) <==> h !in Run(t, events).handles;
      } else {
        StaysOut(u, events[n], h);
        var k :| EndedBy(t, before, k, h);
        assert EndedBy(t, events, k, h);
      }
    }
  }
}
