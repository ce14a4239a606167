/**
The sending side of `examples/tcp/tcp-large-transfer.cc`: a resumable writer that is called
back whenever the socket has room and must put one fixed byte stream into it.
*/
module LargeTransfer {

  type Byte = x: int | 0 <= x < 256

  const TOTAL_TX_BYTES := 2000000
  const WRITE_SIZE := 1040

  // Byte `k` of the stream: the letters over and over.
  function Letter(k: nat): Byte {
    97 + k % 26
  }

  function Stream(n: nat): (s: seq<Byte>)
    ensures |s| == n && forall k :: 0 <= k < n ==> s[k] == Letter(k)
  {
    seq(n, k requires 0 <= k => Letter(k))
  }

  // The write size is a multiple of the number of letters, so that a buffer of letters can
  // go on wherever the stream stands.
  lemma BufferFitsStream(sent: nat, j: nat)
    requires sent % WRITE_SIZE + j < WRITE_SIZE
    ensures Letter(sent % WRITE_SIZE + j) == Letter(sent + j)
  {
  }

  // How the socket behaves during one turn of the loop: the room it reports, and how much it
  // takes of what is offered, a negative number for an error.
  datatype Turn = Turn(room: nat, takes: int)

  // A socket that behaves as scripted, and reports no room when the script is over.
  class Socket {
    var script: seq<Turn>
    var accepted: seq<Byte>
    var closed: bool

    constructor (script: seq<Turn>)
      ensures this.script == script && accepted == [] && !closed
    {
      this.script, accepted, closed := script, [], false;
    }

    function GetTxAvailable(): nat
      reads this
    {
      if script == [] then 0 else script[0].room
    }

    // Takes some of the bytes offered, or refuses them all.
    method Send(bytes: seq<Byte>) returns (amount: int)
      requires script != []
      modifies this`script, this`accepted
      ensures script == old(script)[1..]
      ensures amount == Taken(old(script)[0], |bytes|)
      ensures accepted == if amount < 0 then old(accepted) else old(accepted) + bytes[..amount]
    {
      amount := Taken(script[0], |bytes|);
      script := script[1..];
      if amount >= 0 {
        accepted := accepted + bytes[..amount];
      }
    }

    method Close()
      modifies this`closed
      ensures closed
    {
      closed := true;
    }
  }

  function Taken(turn: Turn, offered: nat): (amount: int)
    ensures -1 <= amount <= offered
  {
    if turn.takes < 0 then -1 else if turn.takes > offered then offered else turn.takes
  }

  function Min(a: int, b: int): int {
    if a < b then a else b
  }

  // What one turn offers: up to the end of the buffer, of the stream and of the room.
  function Offered(sent: nat, room: nat): int {
    Min(Min(WRITE_SIZE - sent % WRITE_SIZE, TOTAL_TX_BYTES - sent), room)
  }

  // It offers the most that is possible: an amount is within the offer exactly if it is
  // within the buffer, the stream and the room.
  lemma OfferedIsMost(sent: nat, room: nat, amount: nat)
    requires sent <= 2000000
    ensures amount <= Offered(sent, room) <==> amount <= room && sent + amount <= 2000000 && sent % 1040 + amount <= 1040
  {
  }

  // How many bytes are sent after a call, and what is left of the script.
  function AfterCall(sent: nat, script: seq<Turn>): (r: (nat, seq<Turn>))
    requires sent <= TOTAL_TX_BYTES
    ensures sent <= r.0 <= TOTAL_TX_BYTES
    decreases |script|
  {
    if sent == TOTAL_TX_BYTES || script == [] || script[0].room == 0 then (sent, script)
    else
      var amount := Taken(script[0], Offered(sent, script[0].room));
      if amount < 0 then (sent, script[1..]) else AfterCall(sent + amount, script[1..])
  }

  // Whether a call ends in the loop, by an error of the socket.
  predicate Refused(sent: nat, script: seq<Turn>)
    requires sent <= TOTAL_TX_BYTES
    decreases |script|
  {
    if sent == TOTAL_TX_BYTES || script == [] || script[0].room == 0 then false
    else
      var amount := Taken(script[0], Offered(sent, script[0].room));
      amount < 0 || Refused(sent + amount, script[1..])
  }

  lemma CallUnfolds(sent: nat, script: seq<Turn>)
    requires sent < TOTAL_TX_BYTES && script != [] && script[0].room > 0
    ensures var amount := Taken(script[0], Offered(sent, script[0].room));
            && (amount < 0 ==> AfterCall(sent, script) == (sent, script[1..]) && Refused(sent, script))
            && (amount >= 0 ==> AfterCall(sent, script) == AfterCall(sent + amount, script[1..])
                                && Refused(sent, script) == Refused(sent + amount, script[1..]))
  {
  }

  // A call that completes the stream was not refused, so that it gets to closing the socket.
  lemma {:induction false} CompleteIsNotRefused(sent: nat, script: seq<Turn>)
    requires sent <= TOTAL_TX_BYTES && AfterCall(sent, script).0 == TOTAL_TX_BYTES
    ensures !Refused(sent, script)
    decreases |script|
  {
    if sent < TOTAL_TX_BYTES && script != [] && script[0].room > 0 {
      CallUnfolds(sent, script);
      var amount := Taken(script[0], Offered(sent, script[0].room));
      if amount >= 0 {
        CompleteIsNotRefused(sent + amount, script[1..]);
      }
    }
  }

  class Writer {
    const data: array<Byte>
    var currentTxBytes: nat

    // The buffer holds the letters.
    ghost predicate Valid()
      reads this, data
    {
      && data.Length == WRITE_SIZE
      && (forall i :: 0 <= i < WRITE_SIZE ==> data[i] == Letter(i))
      && currentTxBytes <= TOTAL_TX_BYTES
    }

    // The socket has taken exactly what is counted as sent, and is closed if that is all.
    ghost predicate InStep(socket: Socket)
      reads this, socket
    {
      && socket.accepted == Stream(currentTxBytes)
      && (socket.closed <==> currentTxBytes == TOTAL_TX_BYTES)
    }

    constructor ()
      ensures Valid() && fresh(data) && currentTxBytes == 0
    {
      data := new Byte[WRITE_SIZE];
      currentTxBytes := 0;
      new;
      for i := 0 to WRITE_SIZE
        invariant forall j :: 0 <= j < i ==> data[j] == Letter(j)
        invariant currentTxBytes == 0
      {
        data[i] := 97 + i % 26;
      }
    }

    // One turn of the loop: the buffer from where the stream stands, as far as the buffer,
    // the stream and the room go.
    method WriteOnce(socket: Socket) returns (amountSent: int)
      requires Valid() && currentTxBytes < TOTAL_TX_BYTES
      requires socket.script != [] && socket.GetTxAvailable() > 0
      requires socket.accepted == Stream(currentTxBytes)
      modifies this`currentTxBytes, socket`script, socket`accepted
      ensures socket.script == old(socket.script)[1..]
      ensures amountSent == Taken(old(socket.script)[0], Offered(old(currentTxBytes), old(socket.script)[0].room))
      ensures currentTxBytes == if amountSent < 0 then old(currentTxBytes) else old(currentTxBytes) + amountSent
      ensures Valid() && socket.accepted == Stream(currentTxBytes)
    {
      var left := TOTAL_TX_BYTES - currentTxBytes;
      var dataOffset := currentTxBytes % WRITE_SIZE;
      var toWrite := WRITE_SIZE - dataOffset;
      toWrite := Min(toWrite, left);
      toWrite := Min(toWrite, socket.GetTxAvailable());
      ghost var buffer := data[..];
      var bytes := data[dataOffset..dataOffset + toWrite];
      assert bytes == buffer[dataOffset..dataOffset + toWrite];
      amountSent := socket.Send(bytes);
      if amountSent < 0 {
        return;
      }
      StreamGrows(currentTxBytes, amountSent, buffer, dataOffset);
      assert bytes[..amountSent] == buffer[dataOffset..dataOffset + amountSent];
      currentTxBytes := currentTxBytes + amountSent;
    }

    // The callback: writes until the stream ends, the socket has no room, or it refuses.
    method WriteUntilBufferFull(socket: Socket)
      requires Valid() && InStep(socket)
      modifies this`currentTxBytes, socket
      ensures Valid() && InStep(socket)
      ensures (currentTxBytes, socket.script) == AfterCall(old(currentTxBytes), old(socket.script))
      ensures socket.closed <==> currentTxBytes == TOTAL_TX_BYTES
    {
      ghost var goal := AfterCall(currentTxBytes, socket.script);
      while currentTxBytes < TOTAL_TX_BYTES && socket.GetTxAvailable() > 0
        invariant Valid() && socket.accepted == Stream(currentTxBytes)
        invariant socket.closed ==> currentTxBytes == TOTAL_TX_BYTES
        invariant goal == AfterCall(currentTxBytes, socket.script)
        decreases |socket.script|
      {
        CallUnfolds(currentTxBytes, socket.script);
        var amountSent := WriteOnce(socket);
        if amountSent < 0 {
          return;
        }
      }
      if currentTxBytes >= TOTAL_TX_BYTES {
        socket.Close();
      }
    }
  }

  lemma {:induction false} StreamGrows(sent: nat, amount: nat, buffer: seq<Byte>, offset: nat)
    requires |buffer| == WRITE_SIZE && forall i :: 0 <= i < WRITE_SIZE ==> buffer[i] == Letter(i)
    requires offset == sent % WRITE_SIZE && offset + amount <= WRITE_SIZE
    ensures Stream(sent) + buffer[offset..offset + amount] == Stream(sent + amount)
  {
    forall k | sent <= k < sent + amount ensures buffer[offset + k - sent] == Letter(k) {
      BufferFitsStream(sent, k - sent);
    }
  }

  // If the socket has room and takes something in every turn, a call goes on until the
  // stream ends or the turns do, at one byte a turn or more.
  lemma {:induction false} ProgressEnds(sent: nat, script: seq<Turn>)
    requires sent <= TOTAL_TX_BYTES
    requires forall i :: 0 <= i < |script| ==> script[i].room > 0 && script[i].takes > 0
    ensures AfterCall(sent, script).0 >= Min(TOTAL_TX_BYTES, sent + |script|)
    ensures !Refused(sent, script)
    decreases |script|
  {
    if sent < TOTAL_TX_BYTES && script != [] {
      CallUnfolds(sent, script);
      OffersSomething(sent, script[0].room);
      ProgressEnds(sent + Taken(script[0], Offered(sent, script[0].room)), script[1..]);
    }
  }

  lemma OffersSomething(sent: nat, room: nat)
    requires sent < TOTAL_TX_BYTES && room > 0
    ensures Offered(sent, room) > 0
  {
  }

  // ----- a call that is never out of turns -----

  // How many bytes are sent after `n` turns of the loop, if none of them ends it.
  function SentAfter(sent: nat, turns: nat -> Turn, n: nat): (r: nat)
    requires sent <= TOTAL_TX_BYTES
    ensures sent <= r <= TOTAL_TX_BYTES
  {
    if n == 0 then sent
    else
      var before := SentAfter(sent, turns, n - 1);
      var amount := Taken(turns(n - 1), Offered(before, turns(n - 1).room));
      if amount < 0 then before else before + amount
  }

  // Turn `n` is the one in which the loop ends, if it has got there.
  predicate EndsAt(sent: nat, turns: nat -> Turn, n: nat)
    requires sent <= TOTAL_TX_BYTES
  {
    SentAfter(sent, turns, n) == TOTAL_TX_BYTES || turns(n).room == 0 || turns(n).takes < 0
  }

  // From turn `m` on the socket reports room and takes nothing of what it is offered.
  ghost predicate StallsAt(sent: nat, turns: nat -> Turn, m: nat)
    requires sent <= TOTAL_TX_BYTES
  {
    && SentAfter(sent, turns, m) < TOTAL_TX_BYTES
    && (forall n: nat :: turns(n).room > 0 && turns(n).takes >= 0)
    && (forall n: nat :: m <= n ==> turns(n).takes == 0)
  }

  function Prefix(turns: nat -> Turn, n: nat): (script: seq<Turn>)
    ensures |script| == n && forall i :: 0 <= i < n ==> script[i] == turns(i)
  {
    seq(n, i requires 0 <= i => turns(i))
  }

  lemma TurnFollows(sent: nat, script: seq<Turn>)
    requires sent < TOTAL_TX_BYTES && script != [] && script[0].room > 0 && script[0].takes >= 0
    ensures AfterCall(sent, script) == AfterCall(sent + Taken(script[0], Offered(sent, script[0].room)), script[1..])
  {
  }

  lemma {:induction false} OneTurn(sent: nat, turns: nat -> Turn, k: nat, length: nat)
    requires sent <= TOTAL_TX_BYTES && k < length && !EndsAt(sent, turns, k)
    ensures AfterCall(SentAfter(sent, turns, k), Prefix(turns, length)[k..])
         == AfterCall(SentAfter(sent, turns, k + 1), Prefix(turns, length)[k + 1..])
  {
    var script := Prefix(turns, length)[k..];
    TurnFollows(SentAfter(sent, turns, k), script);
    assert script[1..] == Prefix(turns, length)[k + 1..];
  }

  // As long as no turn ends the loop, a call does what these turns say.
  lemma {:induction false} CallFollowsTurns(sent: nat, turns: nat -> Turn, n: nat, length: nat)
    requires sent <= TOTAL_TX_BYTES && n <= length && forall i: nat :: i < n ==> !EndsAt(sent, turns, i)
    ensures AfterCall(sent, Prefix(turns, length)) == AfterCall(SentAfter(sent, turns, n), Prefix(turns, length)[n..])
  {
    if n == 0 {
      assert Prefix(turns, length)[0..] == Prefix(turns, length);
    } else {
      CallFollowsTurns(sent, turns, n - 1, length);
      OneTurn(sent, turns, n - 1, length);
    }
  }

  // And where one ends it, the call has sent what they say, whatever turns would follow.
  lemma {:induction false} CallEndsAt(sent: nat, turns: nat -> Turn, n: nat, length: nat)
    requires sent <= TOTAL_TX_BYTES && n < length
    requires EndsAt(sent, turns, n) && forall i: nat :: i < n ==> !EndsAt(sent, turns, i)
    ensures AfterCall(sent, Prefix(turns, length)).0 == SentAfter(sent, turns, n)
  {
    CallFollowsTurns(sent, turns, n, length);
  }

  lemma {:induction false} SentGrows(sent: nat, turns: nat -> Turn, m: nat, n: nat)
    requires sent <= TOTAL_TX_BYTES && m <= n
    ensures SentAfter(sent, turns, m) <= SentAfter(sent, turns, n)
    ensures (forall i: nat :: m <= i ==> turns(i).takes == 0) ==> SentAfter(sent, turns, n) == SentAfter(sent, turns, m)
    decreases n
  {
    if m < n {
      SentGrows(sent, turns, m, n - 1);
    }
  }

  lemma {:induction false} TakingSends(sent: nat, turns: nat -> Turn, n: nat)
    requires sent <= TOTAL_TX_BYTES && !EndsAt(sent, turns, n) && turns(n).takes > 0
    ensures SentAfter(sent, turns, n + 1) > SentAfter(sent, turns, n)
  {
    OffersSomething(SentAfter(sent, turns, n), turns(n).room);
  }

  // A loop that never ends stalls after some turn: it cannot send for ever.
  lemma {:induction false} EndlessStalls(sent: nat, turns: nat -> Turn, m: nat) returns (n: nat)
    requires sent <= TOTAL_TX_BYTES && forall i: nat :: !EndsAt(sent, turns, i)
    ensures StallsAt(sent, turns, n)
    decreases TOTAL_TX_BYTES - SentAfter(sent, turns, m)
  {
    if k: nat :| m <= k && turns(k).takes != 0 {
      assert !EndsAt(sent, turns, k);
      TakingSends(sent, turns, k);
      SentGrows(sent, turns, m, k);
      n := EndlessStalls(sent, turns, k + 1);
    } else {
      n := m;
      assert !EndsAt(sent, turns, m);
      forall i: nat ensures turns(i).room > 0 && turns(i).takes >= 0 {
        assert !EndsAt(sent, turns, i);
      }
    }
  }

  // Over endless turns of the socket, the loop goes on for ever if and only if the socket
  // always reports room, never refuses, and from some turn on takes nothing of what is left.
  lemma {:induction false} EndlessIffStalls(sent: nat, turns: nat -> Turn)
    requires sent <= TOTAL_TX_BYTES
    ensures (forall n: nat :: !EndsAt(sent, turns, n)) <==> exists m: nat :: StallsAt(sent, turns, m)
  {
    if forall n: nat :: !EndsAt(sent, turns, n) {
      var m := EndlessStalls(sent, turns, 0);
    }
    if m: nat :| StallsAt(sent, turns, m) {
      forall n: nat ensures !EndsAt(sent, turns, n) {
        if n <= m {
          SentGrows(sent, turns, n, m);
        } else {
          SentGrows(sent, turns, m, n);
        }
      }
    }
  }

  // ----- the whole flow -----

  // How much is sent by a number of callbacks, each with its own behaviour of the socket.
  function SentOver(calls: seq<seq<Turn>>): (sent: nat)
    ensures sent <= TOTAL_TX_BYTES
  {
    if calls == [] then 0 else AfterCall(SentOver(calls[..|calls| - 1]), calls[|calls| - 1]).0
  }

  function Turns(calls: seq<seq<Turn>>): nat {
    if calls == [] then 0 else Turns(calls[..|calls| - 1]) + |calls[|calls| - 1]|
  }

  // The flow is complete, and closed, after as many turns as bytes if each takes something.
  lemma {:induction false} FlowCompletes(calls: seq<seq<Turn>>)
    requires forall i :: 0 <= i < |calls| ==> Willing(calls[i])
    ensures SentOver(calls) >= Min(TOTAL_TX_BYTES, Turns(calls))
  {
    if calls != [] {
      var n := |calls| - 1;
      FlowCompletes(calls[..n]);
      assert Willing(calls[n]);
      ProgressEnds(SentOver(calls[..n]), calls[n]);
    }
  }

  ghost predicate Willing(script: seq<Turn>) {
    forall i :: 0 <= i < |script| ==> script[i].room > 0 && script[i].takes > 0
  }

  // The flow over any number of callbacks: what was received is the beginning of the stream,
  // and the socket is closed if and only if it is all of it.
  method Transfer(calls: seq<seq<Turn>>) returns (received: seq<Byte>, closed: bool)
    ensures received == Stream(SentOver(calls)) && |received| == SentOver(calls) <= 2000000
    ensures forall k :: 0 <= k < |received| ==> received[k] == 'a' as int + k % 26
    ensures closed <==> |received| == 2000000
  {
    var writer := new Writer();
    var socket := new Socket([]);
    for i := 0 to |calls|
      invariant writer.Valid() && writer.InStep(socket) && fresh(writer) && fresh(socket)
      invariant writer.currentTxBytes == SentOver(calls[..i])
    {
      assert calls[..i + 1][..i] == calls[..i];
      socket.script := calls[i];
      writer.WriteUntilBufferFull(socket);
    }
    assert calls[..|calls|] == calls;
    assert |Stream(writer.currentTxBytes)| == writer.currentTxBytes;
    return socket.accepted, socket.closed;
  }
}
