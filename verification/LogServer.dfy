/** log_server_task of main/log_server.c: connected clients, and sending each message to all of
    them while dropping those whose connection has failed. */
module LogServer {
  import opened Wrappers
  import opened LogFraming

  const MAX_CLIENTS: nat := 4

  /** A message sent to a client, and how much of its frame the connection took. */
  datatype Sent = Sent(msg: string, taken: nat)

  predicate SentOk(x: Sent) { x.msg != "" && x.taken <= |Frame(x.msg)| }

  /** What a client has received: the part taken of each frame. */
  function Stream(xs: seq<Sent>): string
    requires forall k | 0 <= k < |xs| :: SentOk(xs[k])
  {
    if xs == [] then ""
    else
      assert SentOk(xs[0]);
      Frame(xs[0].msg)[..xs[0].taken] + Stream(xs[1..])
  }

  function Messages(xs: seq<Sent>): (ms: seq<string>)
    ensures |ms| == |xs| && forall k | 0 <= k < |ms| :: ms[k] == xs[k].msg
  {
    seq(|xs|, k requires 0 <= k < |xs| => xs[k].msg)
  }

  predicate Whole(x: Sent) { x.taken == |Frame(x.msg)| }

  lemma {:induction false} StreamLength(xs: seq<Sent>)
    requires forall k | 0 <= k < |xs| :: SentOk(xs[k])
    ensures |Stream(xs)| <= |Frames(Messages(xs))|
    ensures |Stream(xs)| == |Frames(Messages(xs))| <==> forall k | 0 <= k < |xs| :: Whole(xs[k])
    ensures (forall k | 0 <= k < |xs| :: Whole(xs[k])) ==> Stream(xs) == Frames(Messages(xs))
  {
    hide Frame;
    if xs == [] {
    } else {
      StreamLength(xs[1..]);
      assert Messages(xs)[1..] == Messages(xs[1..]);
      assert (forall k | 0 <= k < |xs| :: Whole(xs[k])) <==>
        Whole(xs[0]) && forall k | 0 <= k < |xs[1..]| :: Whole(xs[1..][k]) by
      {
        assert forall k | 0 < k < |xs| :: xs[k] == xs[1..][k - 1];
      }
      assert Whole(xs[0]) ==> Frame(xs[0].msg)[..xs[0].taken] == Frame(xs[0].msg);
    }
  }

  /** A client recovers the messages sent to it, exactly as long as no send took only a part of a
      frame: nothing sends the remainder. */
  lemma ClientDecodesExactly(xs: seq<Sent>)
    requires forall k | 0 <= k < |xs| :: SentOk(xs[k])
    ensures Decode(Stream(xs)) == Some(Messages(xs)) <==> forall k | 0 <= k < |xs| :: Whole(xs[k])
  {
    hide Frame, Decode;
    StreamLength(xs);
    FramesDecode(Messages(xs));
    if Decode(Stream(xs)) == Some(Messages(xs)) { DecodesOnlyFrames(Stream(xs), Messages(xs)); }
  }

  lemma {:induction false} StreamMore(xs: seq<Sent>, x: Sent)
    requires (forall k | 0 <= k < |xs| :: SentOk(xs[k])) && SentOk(x)
    ensures forall k | 0 <= k < |xs + [x]| :: SentOk((xs + [x])[k])
    ensures Stream(xs + [x]) == Stream(xs) + Frame(x.msg)[..x.taken]
  {
    hide Frame;
    if xs == [] {
      assert [x][1..] == [];
    } else {
      StreamMore(xs[1..], x);
      assert (xs + [x])[1..] == xs[1..] + [x];
    }
  }

  // ---------------------------------------------------------------------------------------
  // The server

  type Fd = int

  datatype Call = Call(fd: Fd, data: string, result: int)

  /** The clients' connections: what has been received on each since it was accepted, and by how
      many calls it has been closed. */
  class Net {
    var received: map<Fd, string>
    var isOpen: set<Fd>
    ghost var calls: seq<Call>   // every send, and what it returned

    constructor ()
      ensures received == map[] && isOpen == {} && calls == []
    {
      received, isOpen, calls := map[], {}, [];
    }

    /** accept: a descriptor that is not open, if a client is waiting. */
    method Accept() returns (fd: Option<Fd>)
      modifies this`received, this`isOpen
      ensures fd.None? ==> received == old(received) && isOpen == old(isOpen)
      ensures fd.Some? ==> fd.value !in old(isOpen) && isOpen == old(isOpen) + {fd.value}
      ensures fd.Some? ==> received == old(received)[fd.value := ""]
    {
      var waiting: bool := *;
      if !waiting { return None; }
      var n: Fd := *;
      if n in isOpen { return None; }
      isOpen, received := isOpen + {n}, received[n := ""];
      return Some(n);
    }

    /** send with MSG_NOSIGNAL: negative on failure, else the length taken. */
    method Send(fd: Fd, data: string) returns (n: int)
      requires fd in received
      modifies this`received, this`calls
      ensures n <= |data| && calls == old(calls) + [Call(fd, data, n)]
      ensures received == if n >= 0 then old(received)[fd := old(received)[fd] + data[..n]] else old(received)
    {
      n :| n <= |data|;
      calls := calls + [Call(fd, data, n)];
      if n >= 0 { received := received[fd := received[fd] + data[..n]]; }
    }

    method Close(fd: Fd)
      requires fd in isOpen
      modifies this`isOpen
      ensures isOpen == old(isOpen) - {fd}
    {
      isOpen := isOpen - {fd};
    }
  }

  predicate Distinct(xs: seq<Fd>) {
    forall j, k | 0 <= j < k < |xs| :: xs[j] != xs[k]
  }

  /** The set of the clients in a stretch of the array. */
  function Among(xs: seq<Fd>): set<Fd> { set x | x in xs }

  class Server {
    const net: Net
    const clients: array<Fd>
    var count: nat
    ghost var sent: map<Fd, seq<Sent>>    // to each client, since it was accepted

    /** Every client is an open connection, and has received what its sends took. */
    ghost predicate Client(fd: Fd)
      reads this, net
    {
      && fd in net.isOpen && fd in net.received && fd in sent
      && (forall k | 0 <= k < |sent[fd]| :: SentOk(sent[fd][k]))
      && net.received[fd] == Stream(sent[fd])
    }

    ghost predicate Valid()
      reads this, net, clients
    {
      && count <= clients.Length
      && Distinct(clients[..count])
      && net.isOpen == Among(clients[..count])
      && (forall i | 0 <= i < count :: Client(clients[i]))
    }

    constructor (net: Net)
      requires net.isOpen == {}
      ensures Valid() && this.net == net && count == 0 && clients.Length == MAX_CLIENTS && fresh(clients)
    {
      this.net := net;
      clients := new Fd[MAX_CLIENTS];
      count, sent := 0, map[];
    }

    /** The accept part of a turn of the loop. */
    method AcceptClient() returns (fd: Option<Fd>)
      requires Valid()
      modifies this, clients, net
      ensures Valid()
      ensures fd.None? ==> clients[..count] == old(clients[..count]) && sent == old(sent)
      ensures fd.Some? ==> clients[..count] == old(clients[..count]) + [fd.value] && sent == old(sent)[fd.value := []]
      ensures old(count) == clients.Length ==> fd.None?
    {
      hide Stream;
      fd := None;
      if count < clients.Length {
        fd := net.Accept();
        if fd.Some? {
          NoneYet();
          clients[count] := fd.value;
          count := count + 1;
          sent := sent[fd.value := []];
          assert clients[..count] == old(clients[..count]) + [fd.value];
          forall i | 0 <= i < count ensures Client(clients[i]) {
            if i < count - 1 { assert old(clients[..count])[i] == clients[i] && old(Client(clients[i])); }
          }
        }
      }
    }

    /** remove_client: the last client takes the place of the one removed. */
    method RemoveClient(index: nat)
      requires index < count <= clients.Length && clients[index] in net.isOpen
      modifies this`count, clients, net`isOpen
      ensures count == old(count) - 1 && net.isOpen == old(net.isOpen) - {old(clients[index])}
      ensures forall k | 0 <= k < count :: clients[k] == old(clients[if k == index then count - 1 else k])
      ensures clients[count..] == old(clients[count - 1..])
    {
      net.Close(clients[index]);
      count := count - 1;
      clients[index] := clients[count];
    }

    /** One client's turn: the message is sent, and the client removed if that fails. */
    method SendOne(i: nat, msg: string) returns (n: int)
      requires Valid() && i < count && msg != ""
      modifies this, clients, net
      ensures Valid() && n <= |Frame(msg)| && count <= clients.Length
      ensures net.calls == old(net.calls) + [Call(old(clients[i]), Frame(msg), n)]
      ensures n >= 0 ==> clients[..count] == old(clients[..count])
      ensures n >= 0 ==> old(clients[i]) in old(sent)
      ensures n >= 0 ==> sent == old(sent)[old(clients[i]) := old(sent)[old(clients[i])] + [Sent(msg, n)]]
      ensures n < 0 ==> clients[..count] == SwapRemoved(old(clients[..count]), i) && sent == old(sent)
    {
      hide Frame, Stream;
      ghost var cur, before := clients[..count], sent;
      var fd := clients[i];
      assert fd == cur[i] && Client(fd);
      n := net.Send(fd, Frame(msg));
      if n < 0 {
        SwapRemovedKeeps(cur, i);
        RemoveClient(i);
        assert clients[..count] == SwapRemoved(cur, i);
        forall k | 0 <= k < count ensures Client(clients[k]) { assert clients[k] in cur && clients[k] != fd; }
      } else {
        StreamMore(sent[fd], Sent(msg, n));
        sent := sent[fd := sent[fd] + [Sent(msg, n)]];
        assert clients[..count] == cur;
        forall k | 0 <= k < count ensures Client(clients[k]) { assert cur[k] == fd <==> k == i; }
      }
    }

    /** One message off the queue, to every client, from the last down to the first.  Each client
        is sent it exactly once, whatever fails, and those whose send did not fail remain. */
    method Broadcast(msg: string) returns (tried: seq<(Fd, int)>)
      requires Valid() && msg != ""
      modifies this, clients, net
      ensures Valid()
      ensures |tried| == old(count)
      ensures forall k | 0 <= k < |tried| :: tried[k].0 == old(clients[..count])[|tried| - 1 - k]
      ensures net.calls == old(net.calls) + Calls(tried, msg)
      ensures Among(clients[..count]) == Survivors(tried)
      ensures forall k | 0 <= k < |tried| :: tried[k].0 in old(sent) && tried[k].0 in sent && tried[k].1 <= |Frame(msg)|
      ensures forall k | 0 <= k < |tried| :: sent[tried[k].0] == After(old(sent)[tried[k].0], msg, tried[k].1)
    {
      hide Frame, Stream, Client, Valid, Among, Survivors, Calls, Progress;
      ShapeNow();
      ghost var all, before := clients[..count], sent;
      NobodyYet();
      NoProgress(before, all, msg);
      tried := [];
      var i := count - 1;
      assert all[..i + 1] == all && clients[..count][i + 1..] == [];
      while i >= 0
        invariant -1 <= i < |all| && |tried| == |all| - 1 - i && Valid() && i < count <= clients.Length
        invariant clients[..count][..i + 1] == all[..i + 1]
        invariant Among(clients[..count][i + 1..]) == Survivors(tried)
        invariant Progress(before, sent, all, tried, msg)
        invariant net.calls == old(net.calls) + Calls(tried, msg)
        decreases i
      {
        ghost var cur, was := clients[..count], sent;
        assert cur[i] == cur[..i + 1][i] == all[i] == clients[i];
        var fd := clients[i];
        var n := SendOne(i, msg);
        SurvivorsMore(tried, (fd, n));
        CallsMore(tried, (fd, n), msg);
        TurnDone(cur, all, i);
        ProgressMore(before, was, sent, all, tried, fd, n, msg);
        tried := tried + [(fd, n)];
        i := i - 1;
      }
      assert clients[..count][0..] == clients[..count];
      ProgressDone(before, sent, all, tried, msg);
    }

    lemma ShapeNow()
      requires Valid()
      ensures count <= clients.Length && Distinct(clients[..count])
      ensures forall k | 0 <= k < count :: clients[k] in sent
    {
      forall k | 0 <= k < count ensures clients[k] in sent { assert Client(clients[k]); }
    }
  }

  /** What a connected client can make of what it has received. */
  lemma WhatClientSees(server: Server, i: nat)
    requires server.Valid() && i < server.count
    ensures server.clients[i] in server.sent && server.clients[i] in server.net.received
    ensures var xs := server.sent[server.clients[i]];
      Decode(server.net.received[server.clients[i]]) == Some(Messages(xs)) <==> forall k | 0 <= k < |xs| :: Whole(xs[k])
  {
    hide Decode, Stream, Frame;
    assert server.Client(server.clients[i]);
    ClientDecodesExactly(server.sent[server.clients[i]]);
  }

  /** What the sends so far, from the last client down, have done to what has been sent to each. */
  ghost predicate Progress(before: map<Fd, seq<Sent>>, now: map<Fd, seq<Sent>>, all: seq<Fd>,
                           tried: seq<(Fd, int)>, msg: string)
  {
    && |tried| <= |all|
    && (forall k | 0 <= k < |all| :: all[k] in before && all[k] in now)
    && (forall k | 0 <= k < |tried| :: tried[k].0 == all[|all| - 1 - k] && tried[k].1 <= |Frame(msg)|)
    && (forall k | |all| - |tried| <= k < |all| :: now[all[k]] == After(before[all[k]], msg, tried[|all| - 1 - k].1))
    && (forall k | 0 <= k < |all| - |tried| :: now[all[k]] == before[all[k]])
  }

  lemma NoProgress(sent: map<Fd, seq<Sent>>, all: seq<Fd>, msg: string)
    requires forall k | 0 <= k < |all| :: all[k] in sent
    ensures Progress(sent, sent, all, [], msg)
  {}

  lemma ProgressMore(before: map<Fd, seq<Sent>>, was: map<Fd, seq<Sent>>, now: map<Fd, seq<Sent>>, all: seq<Fd>,
                     tried: seq<(Fd, int)>, fd: Fd, n: int, msg: string)
    requires Progress(before, was, all, tried, msg) && Distinct(all) && |tried| < |all|
    requires fd == all[|all| - 1 - |tried|] && n <= |Frame(msg)|
    requires n >= 0 ==> fd in was && now == was[fd := was[fd] + [Sent(msg, n)]]
    requires n < 0 ==> now == was
    ensures Progress(before, now, all, tried + [(fd, n)], msg)
  {
    hide Frame;
    var i := |all| - 1 - |tried|;
    assert forall k | 0 <= k < |all| && k != i :: all[k] != fd && now[all[k]] == was[all[k]];
  }

  lemma ProgressDone(before: map<Fd, seq<Sent>>, now: map<Fd, seq<Sent>>, all: seq<Fd>,
                     tried: seq<(Fd, int)>, msg: string)
    requires Progress(before, now, all, tried, msg) && |tried| == |all|
    ensures forall k | 0 <= k < |tried| :: tried[k].0 == all[|tried| - 1 - k]
    ensures forall k | 0 <= k < |tried| :: tried[k].0 in before && tried[k].0 in now && tried[k].1 <= |Frame(msg)|
    ensures forall k | 0 <= k < |tried| :: now[tried[k].0] == After(before[tried[k].0], msg, tried[k].1)
  {
    hide Frame;
    forall k | 0 <= k < |tried|
      ensures tried[k].0 in before && now[tried[k].0] == After(before[tried[k].0], msg, tried[k].1)
    {
      var j := |all| - 1 - k;
      assert tried[k].0 == all[j] && tried[|all| - 1 - j] == tried[k];
    }
  }

  lemma NobodyYet()
    ensures Among([]) == {} && Survivors([]) == {}
  {}

  /** What has been sent to a client once a send to it took n bytes, or failed. */
  function After(xs: seq<Sent>, msg: string, n: int): seq<Sent> { if n >= 0 then xs + [Sent(msg, n)] else xs }

  /** The sends that make up a broadcast. */
  function Calls(tried: seq<(Fd, int)>, msg: string): (cs: seq<Call>)
    ensures |cs| == |tried|
  {
    seq(|tried|, k requires 0 <= k < |tried| => Call(tried[k].0, Frame(msg), tried[k].1))
  }

  lemma CallsMore(tried: seq<(Fd, int)>, x: (Fd, int), msg: string)
    ensures Calls(tried + [x], msg) == Calls(tried, msg) + [Call(x.0, Frame(msg), x.1)]
  {
    hide Frame;
  }

  function Survivors(tried: seq<(Fd, int)>): set<Fd> { set x | x in tried && x.1 >= 0 :: x.0 }

  lemma SurvivorsMore(tried: seq<(Fd, int)>, x: (Fd, int))
    ensures Survivors(tried + [x]) == Survivors(tried) + if x.1 >= 0 then {x.0} else {}
  {
    var t := tried + [x];
    assert x in t;
    forall fd | fd in Survivors(tried) ensures fd in Survivors(t) {
      var y :| y in tried && y.1 >= 0 && y.0 == fd;
      assert y in t;
    }
  }

  /** The last element takes the place of the one at i. */
  function SwapRemoved(xs: seq<Fd>, i: nat): (ys: seq<Fd>)
    requires i < |xs|
    ensures |ys| == |xs| - 1 && forall k | 0 <= k < |ys| :: ys[k] == if k == i then xs[|xs| - 1] else xs[k]
  {
    var init := xs[..|xs| - 1];
    if i < |init| then init[i := xs[|xs| - 1]] else init
  }

  lemma SwapRemovedKeeps(xs: seq<Fd>, i: nat)
    requires i < |xs| && Distinct(xs)
    ensures Distinct(SwapRemoved(xs, i)) && Among(SwapRemoved(xs, i)) == Among(xs) - {xs[i]}
  {
    var ys := SwapRemoved(xs, i);
    forall x | x in Among(xs) - {xs[i]} ensures x in Among(ys) {
      var k :| 0 <= k < |xs| && xs[k] == x;
      assert ys[if k == |xs| - 1 then i else k] == x;
    }
  }

  /** After the turn at i, the clients before it are where they were, and behind them are those
      that were behind i, with the client of this turn if it is still there. */
  lemma TurnDone(cur: seq<Fd>, all: seq<Fd>, i: nat)
    requires i < |cur| && i < |all| && cur[..i + 1] == all[..i + 1]
    ensures cur[..i] == all[..i] == SwapRemoved(cur, i)[..i]
    ensures Among(cur[i..]) == Among(cur[i + 1..]) + {all[i]}
    ensures Among(SwapRemoved(cur, i)[i..]) == Among(cur[i + 1..])
  {
    var ys := SwapRemoved(cur, i);
    assert cur[..i] == cur[..i + 1][..i] == all[..i];
    assert cur[i] == cur[..i + 1][i] == all[i];
    assert cur[i..] == [cur[i]] + cur[i + 1..];
    forall x | x in ys[i..] ensures x in cur[i + 1..] {
      var k :| i <= k < |ys| && ys[k] == x;
      var at := if k == i then |cur| - 1 else k;
      assert cur[i + 1..][at - i - 1] == x;
    }
    forall x | x in cur[i + 1..] ensures x in ys[i..] {
      var k :| i + 1 <= k < |cur| && cur[k] == x;
      var at := if k == |cur| - 1 then i else k;
      assert ys[i..][at - i] == x;
    }
  }

  lemma NoneYet()
    ensures Stream([]) == ""
  {}
}
