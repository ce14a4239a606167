/**
How the socket of `src/internet/model/tcp-socket-base.cc` drives the congestion control: which
acknowledgements it reports, on which it asks for an increase, and whole connections.
*/
module SplineSocket {
  import opened SplineNumbers
  import opened SplineEpochs
  import opened SplineWindows
  import opened SplineCc

  datatype CongState = Open | Disorder | Cwr | Recovery | Loss

  // How the socket takes an acknowledgement: as a duplicate, or as one of new data, in the
  // state it is in then, before or after the recovery point, with the segments that it
  // acknowledges and the duplicates seen before.
  datatype Kind =
    | Duplicate
    | NewData(state: CongState, belowRecover: bool, segsAcked: nat, dupAcks: nat, isDupack: bool)
  {
    // The segments reported to the congestion control, if any.
    function Reported(): (segments: Option<nat>) {
      match this
      case Duplicate => Some(1)
      case NewData(Recovery, true, _, _, _) => Some(1)
      case NewData(Disorder, _, segs, dups, _) => if segs >= dups then Some(segs - dups) else None
      case NewData(_, _, segs, _, _) => Some(segs)
    }

    predicate Increases() {
      match this
      case Duplicate => false
      case NewData(Recovery, below, _, _, _) => !below
      case NewData(Cwr, _, _, _, _) => false
      case NewData(Disorder, _, _, _, isDupack) => !isDupack
      case NewData(_, _, _, _, _) => true
    }

    // New data in disorder that acknowledges less than the duplicates before it.
    predicate Unreported() {
      NewData? && state == Disorder && segsAcked < dupAcks && !isDupack
    }
  }

  datatype Option<T> = None | Some(value: T)

  // The state that new data leaves the socket in.
  function NextState(state: CongState, belowRecover: bool, isDupack: bool): CongState {
    match state
    case Open => Open
    case Disorder => if isDupack then Disorder else Open
    case Cwr => Cwr
    case Recovery => if belowRecover then Recovery else Open
    case Loss => if belowRecover then Loss else Open
  }

  // The window is increased by new data that leaves the socket open, and before the recovery
  // point of a loss. Each segment is reported once: in disorder the duplicates were reported
  // as they came, and a partial acknowledgement in recovery is for one segment.
  lemma {:induction false} KindIs(kind: Kind)
    ensures kind.Increases() <==>
      kind.NewData? && (NextState(kind.state, kind.belowRecover, kind.isDupack) == Open
                        || (kind.state == Loss && kind.belowRecover))
    ensures kind.Duplicate? ==> kind.Reported() == Some(1)
    ensures kind.NewData? && kind.state == Disorder && kind.Reported().Some? ==>
      kind.Reported().value + kind.dupAcks == kind.segsAcked
    ensures kind.NewData? && kind.state == Recovery && kind.belowRecover ==> kind.Reported() == Some(1)
    ensures kind.NewData? && kind.state != Disorder && !(kind.state == Recovery && kind.belowRecover) ==>
      kind.Reported() == Some(kind.segsAcked)
  {
  }

  // The one path on which the window is increased without a report.
  lemma UnreportedIff(kind: Kind)
    ensures kind.Unreported() <==> kind.Increases() && kind.Reported().None?
  {
  }

  // An acknowledgement, with the window that the socket has then: recovery changes it too.
  datatype Arrival = Arrival(ack: Ack, cWnd: nat, kind: Kind) {
    predicate Valid() {
      && ack.Valid() && ack.segmentSize > 0 && cWnd < TWO32
      && (kind.NewData? ==> kind.segsAcked < TWO32)
    }
  }

  function ReportOf(casts: Casts, a: Arrival): seq<Event> {
    if a.kind.Reported().Some? then [Acked(a.ack.lastRtt == 0.0, casts.to32(a.ack.lastRtt))] else []
  }

  function EventsOf(casts: Casts, a: Arrival): seq<Event> {
    ReportOf(casts, a) + if a.kind.Increases() then [Increase(casts.to32(a.ack.lastRtt))] else []
  }

  function History(casts: Casts, arrivals: seq<Arrival>): seq<Event> {
    if arrivals == [] then []
    else History(casts, arrivals[..|arrivals| - 1]) + EventsOf(casts, arrivals[|arrivals| - 1])
  }

  ghost predicate NoneUnreported(arrivals: seq<Arrival>) {
    forall i :: 0 <= i < |arrivals| ==> !arrivals[i].kind.Unreported()
  }

  // Where no arrival takes the path without a report, every increase follows its report.
  lemma {:induction false} HistoryIsReported(casts: Casts, arrivals: seq<Arrival>)
    requires casts.Proper() && NoneUnreported(arrivals)
    ensures AllReported(History(casts, arrivals))
  {
    if arrivals != [] {
      var n := |arrivals| - 1;
      HistoryIsReported(casts, arrivals[..n]);
      EventsFollow(casts, History(casts, arrivals[..n]), arrivals[n]);
    }
  }

  lemma {:induction false} EventsFollow(casts: Casts, before: seq<Event>, a: Arrival)
    requires casts.Proper() && !a.kind.Unreported() && AllReported(before)
    ensures AllReported(before + EventsOf(casts, a))
  {
    UnreportedIff(a.kind);
    assert casts.to32(0.0) == 0 by {
      assert 0.0 <= 0.0 < TWO32 as real;
    }
    var n, es := |before|, before + EventsOf(casts, a);
    assert forall i :: 0 <= i < n ==> es[i] == before[i];
    forall i | 0 <= i < |es| && es[i].Increase? ensures FollowsReport(es, i) {
      if i < n {
        assert FollowsReport(before, i);
      } else {
        assert i == n + 1 && es[n] == ReportOf(casts, a)[0];
      }
    }
  }

  // ----- a connection -----

  // What decides the modes, after a number of acknowledgements: the epoch, the mode, and the
  // segments of the last two reports.
  datatype Conn = Conn(epoch: Epoch, mode: Mode, currAck: nat, lastAck: nat)

  predicate ReportsSegments(a: Arrival) {
    a.kind.Reported().Some? && a.ack.lastRtt != 0.0
  }

  function CurrAck(c: Conn, a: Arrival): nat {
    if ReportsSegments(a) then a.kind.Reported().value else c.currAck
  }

  function LastAck(c: Conn, a: Arrival): nat {
    if ReportsSegments(a) then c.currAck else c.lastAck
  }

  // The window, in segments, that an increase enters its mode with: that of the socket, grown
  // first if the mode before was START_PROBE.
  function EntryWindow(casts: Casts, c: Conn, a: Arrival): nat
    requires a.ack.segmentSize > 0
  {
    var whole := Div(a.cWnd, a.ack.segmentSize);
    if c.mode == StartProbe then
      var bw := Max(RawBandwidth(casts, CurrAck(c, a), a.ack), a.ack.initialCWnd);
      StartWindow(whole, StartCap(casts, FairnessRatio(whole, a.ack), bw, MinimalWindow(a.ack), a.ack),
                  CurrAck(c, a) < LastAck(c, a), a.ack)
    else whole
  }

  function AfterArrival(casts: Casts, c: Conn, a: Arrival): Conn
    requires a.ack.segmentSize > 0
  {
    var reported := AfterEvents(c.epoch, ReportOf(casts, a));
    if !a.kind.Increases() then Conn(reported, c.mode, CurrAck(c, a), LastAck(c, a))
    else
      var before := Counted(AfterEpsilon(reported, casts.to32(a.ack.lastRtt)));
      Conn(Closed(before), Chosen(before, Congested(a.ack, CurrAck(c, a), EntryWindow(casts, c, a))),
           CurrAck(c, a), LastAck(c, a))
  }

  function ConnAfter(casts: Casts, arrivals: seq<Arrival>): Conn
    requires HaveSegments(arrivals)
  {
    if arrivals == [] then Conn(START, StartProbe, 0, 0)
    else AfterArrival(casts, ConnAfter(casts, arrivals[..|arrivals| - 1]), arrivals[|arrivals| - 1])
  }

  predicate HaveSegments(arrivals: seq<Arrival>) {
    forall i :: 0 <= i < |arrivals| ==> arrivals[i].ack.segmentSize > 0
  }

  // The segments of all reports with a round-trip time.
  function Reports(arrivals: seq<Arrival>): seq<nat> {
    if arrivals == [] then []
    else
      var a := arrivals[|arrivals| - 1];
      Reports(arrivals[..|arrivals| - 1]) + if ReportsSegments(a) then [a.kind.Reported().value] else []
  }

  // The segments remembered are those of the last report and of the one before it.
  lemma {:induction false} LastReports(casts: Casts, arrivals: seq<Arrival>)
    requires HaveSegments(arrivals)
    ensures var c, n := ConnAfter(casts, arrivals), |Reports(arrivals)|;
            && c.currAck == (if n > 0 then Reports(arrivals)[n - 1] else 0)
            && c.lastAck == if n > 1 then Reports(arrivals)[n - 2] else 0
  {
    if arrivals != [] {
      LastReports(casts, arrivals[..|arrivals| - 1]);
    }
  }

  lemma {:induction false} EpochIsOfHistory(casts: Casts, arrivals: seq<Arrival>)
    requires HaveSegments(arrivals)
    ensures ConnAfter(casts, arrivals).epoch == AfterEvents(START, History(casts, arrivals))
  {
    if arrivals != [] {
      var before, a := arrivals[..|arrivals| - 1], arrivals[|arrivals| - 1];
      EpochIsOfHistory(casts, before);
      EventsAppend(START, History(casts, before), EventsOf(casts, a));
      ArrivalEpoch(casts, ConnAfter(casts, before), a);
    }
  }

  lemma {:induction false} ArrivalEpoch(casts: Casts, c: Conn, a: Arrival)
    requires a.ack.segmentSize > 0
    ensures AfterArrival(casts, c, a).epoch == AfterEvents(c.epoch, EventsOf(casts, a))
  {
    var es := EventsOf(casts, a);
    if a.kind.Increases() {
      assert es[..|es| - 1] == ReportOf(casts, a);
    } else {
      assert es == ReportOf(casts, a);
    }
  }

  // The socket on one acknowledgement: it reports it, and asks for an increase, or does one
  // of the two. The algorithm then knows the segments of the report, and the increase meets
  // congestion by these segments and by the window of the arrival.
  method Arrive(cc: SplineCc, socket: Socket, a: Arrival)
    requires cc.Valid() && a.Valid()
    modifies cc, socket
    ensures cc.Valid()
    ensures if a.kind.Reported().Some? && a.ack.lastRtt != 0.0
            then cc.currAck == a.kind.Reported().value && cc.lastAck == old(cc.currAck)
            else cc.currAck == old(cc.currAck) && cc.lastAck == old(cc.lastAck)
    ensures Conn(cc.epoch, cc.probeMode, cc.currAck, cc.lastAck)
         == AfterArrival(cc.casts, Conn(old(cc.epoch), old(cc.probeMode), old(cc.currAck), old(cc.lastAck)), a)
  {
    socket.cWnd := a.cWnd;
    ghost var c := Conn(cc.epoch, cc.probeMode, cc.currAck, cc.lastAck);
    var report := a.kind.Reported();
    if report.Some? {
      cc.PktsAcked(a.ack.segmentSize, report.value, a.ack.lastRtt);
      assert ReportOf(cc.casts, a)[..0] == [];
    }
    assert cc.epoch == AfterEvents(c.epoch, ReportOf(cc.casts, a));
    assert cc.currAck == CurrAck(c, a) && cc.lastAck == LastAck(c, a);
    if a.kind.Increases() {
      ghost var entry := cc.IncreaseWindow(socket, a.ack);
      assert entry == EntryWindow(cc.casts, c, a);
    }
  }

  // If the last arrival asked for an increase, this is the mode for it to execute.
  ghost predicate LastFits(casts: Casts, arrivals: seq<Arrival>, mode: Mode) {
    arrivals != [] && arrivals[|arrivals| - 1].kind.Increases() ==>
      && ModeFits(History(casts, arrivals), mode)
      && (NoneUnreported(arrivals) ==> (mode == DrainProbe <==> Increases(History(casts, arrivals)) % 9 == 0))
  }

  // The last arrival met congestion: with the segments last reported, more is in flight than
  // their bytes and than the window that the mode is entered with; or less than a segment was
  // acknowledged.
  ghost predicate MetCongestion(casts: Casts, arrivals: seq<Arrival>)
    requires arrivals != [] && HaveSegments(arrivals)
  {
    var a, reports := arrivals[|arrivals| - 1], Reports(arrivals);
    var segments := if reports == [] then 0 else reports[|reports| - 1];
    var entry := EntryWindow(casts, ConnAfter(casts, arrivals[..|arrivals| - 1]), a);
    || (a.ack.bytesInFlight > segments * a.ack.segmentSize % TWO32 && a.ack.bytesInFlight > entry)
    || a.ack.lastAckedSackedBytes < a.ack.segmentSize
  }

  // An increase that is no ninth one executes START_PROBE exactly under congestion, and
  // PROBE_RTT else. It is entered with the window of the socket after the other modes.
  ghost predicate FollowsCongestion(casts: Casts, arrivals: seq<Arrival>, mode: Mode)
    requires HaveSegments(arrivals)
  {
    arrivals != [] && arrivals[|arrivals| - 1].kind.Increases() && Increases(History(casts, arrivals)) % 9 != 0 ==>
      mode == if MetCongestion(casts, arrivals) then StartProbe else ProbeRtt
  }

  // A whole connection: the mode executed by the last acknowledgement, if it asked for an
  // increase. It is the drain mode exactly on each ninth increase whose epoch read no new
  // minimum, so on each ninth one if all were reported, and never the bandwidth mode; on the
  // others congestion decides.
  method Connection(casts: Casts, arrivals: seq<Arrival>) returns (mode: Mode)
    requires casts.Proper() && forall i :: 0 <= i < |arrivals| ==> arrivals[i].Valid()
    ensures mode != ProbeBw
    ensures HaveSegments(arrivals) && mode == ConnAfter(casts, arrivals).mode
    ensures LastFits(casts, arrivals, mode)
    ensures FollowsCongestion(casts, arrivals, mode)
  {
    var cc := new SplineCc(casts);
    var socket := new Socket(0);
    for i := 0 to |arrivals|
      invariant cc.Valid() && cc.casts == casts && fresh(cc) && fresh(socket)
      invariant HaveSegments(arrivals[..i])
      invariant Conn(cc.epoch, cc.probeMode, cc.currAck, cc.lastAck) == ConnAfter(casts, arrivals[..i])
    {
      ConnNext(casts, arrivals[..i], arrivals[i]);
      PrefixNext(arrivals, i);
      Arrive(cc, socket, arrivals[i]);
    }
    assert arrivals[..|arrivals|] == arrivals;
    mode := cc.probeMode;
    LastMode(casts, arrivals);
  }

  lemma {:induction false} ConnNext(casts: Casts, arrivals: seq<Arrival>, a: Arrival)
    requires HaveSegments(arrivals) && a.ack.segmentSize > 0
    ensures HaveSegments(arrivals + [a])
    ensures ConnAfter(casts, arrivals + [a]) == AfterArrival(casts, ConnAfter(casts, arrivals), a)
  {
    assert (arrivals + [a])[..|arrivals|] == arrivals;
  }

  lemma PrefixNext(arrivals: seq<Arrival>, i: nat)
    requires i < |arrivals|
    ensures arrivals[..i + 1] == arrivals[..i] + [arrivals[i]]
  {
  }

  lemma {:induction false} LastMode(casts: Casts, arrivals: seq<Arrival>)
    requires casts.Proper() && HaveSegments(arrivals)
    ensures LastFits(casts, arrivals, ConnAfter(casts, arrivals).mode)
    ensures FollowsCongestion(casts, arrivals, ConnAfter(casts, arrivals).mode)
  {
    if arrivals != [] && arrivals[|arrivals| - 1].kind.Increases() {
      var first, a := arrivals[..|arrivals| - 1], arrivals[|arrivals| - 1];
      var before, read := History(casts, first) + ReportOf(casts, a), casts.to32(a.ack.lastRtt);
      var congested := MetCongestion(casts, arrivals);
      assert History(casts, arrivals) == before + [Increase(read)];
      EpochIsOfHistory(casts, first);
      EventsAppend(START, History(casts, first), ReportOf(casts, a));
      LastReports(casts, arrivals);
      assert ConnAfter(casts, arrivals).mode == ModeAfter(before, read, congested);
      NinthIncrease(before, read, congested);
      OtherIncrease(before, read, congested);
      if NoneUnreported(arrivals) {
        HistoryIsReported(casts, arrivals);
        EpochsAreBlind(History(casts, arrivals), Increases(History(casts, arrivals)) - 9);
      }
    }
  }

  lemma {:induction false} OtherIncrease(es: seq<Event>, read: nat, congested: bool)
    ensures Increases(es + [Increase(read)]) % 9 != 0 ==>
      ModeAfter(es, read, congested) == if congested then StartProbe else ProbeRtt
  {
    EventsAppend(START, es, [Increase(read)]);
    AllIncreases([Increase(read)]);
    ModeOfEveryIncrease(es, read, congested);
  }

  // ----- an increase that is not reported -----

  function Reordered(slow: Ack, fast: Ack, cWnd: nat, n: nat): seq<Arrival> {
    var open := NewData(Open, false, 1, 0, false);
    [Arrival(slow, cWnd, open), Arrival(slow, cWnd, Duplicate), Arrival(slow, cWnd, Duplicate),
     Arrival(fast, cWnd, NewData(Disorder, false, 1, 2, false))] + seq(n, _ => Arrival(fast, cWnd, open))
  }

  // Without its report an increase can see a new minimum. Two duplicates put the socket in
  // disorder, new data of one segment takes it out again unreported and with a shorter
  // round-trip time; after seven more acknowledgements the ninth increase does not drain.
  lemma {:induction false} UnreportedIsSeen(casts: Casts, slow: Ack, fast: Ack, cWnd: nat)
    requires casts.Proper() && slow.lastRtt != 0.0 && fast.lastRtt != 0.0
    requires slow.segmentSize > 0 && fast.segmentSize > 0
    requires 0 < casts.to32(fast.lastRtt) < casts.to32(slow.lastRtt)
    ensures Increases(History(casts, Reordered(slow, fast, cWnd, 7))) == 9
    ensures ConnAfter(casts, Reordered(slow, fast, cWnd, 7)).mode == ProbeRtt
  {
    var arrivals := Reordered(slow, fast, cWnd, 7);
    ReorderedHistory(casts, slow, fast, cWnd, 7);
    LastMode(casts, arrivals);
  }

  // The events of the first four arrivals, and the others that follow them.
  lemma {:induction false} ReorderedStart(casts: Casts, slow: Ack, fast: Ack, cWnd: nat)
    requires slow.lastRtt != 0.0
    ensures var s, r := casts.to32(slow.lastRtt), casts.to32(fast.lastRtt);
            History(casts, Reordered(slow, fast, cWnd, 0))
              == [Acked(false, s), Increase(s), Acked(false, s), Acked(false, s), Increase(r)]
  {
    var all := Reordered(slow, fast, cWnd, 0);
    var s := casts.to32(slow.lastRtt);
    assert all[..4] == all && all[..3] == all[..4][..3] && all[..2] == all[..3][..2] && all[..1] == all[..2][..1];
    assert History(casts, all[..1]) == [Acked(false, s), Increase(s)];
    assert History(casts, all[..2]) == [Acked(false, s), Increase(s), Acked(false, s)];
    assert History(casts, all[..3]) == [Acked(false, s), Increase(s), Acked(false, s), Acked(false, s)];
  }

  lemma {:induction false} ReorderedHistory(casts: Casts, slow: Ack, fast: Ack, cWnd: nat, n: nat)
    requires casts.Proper() && slow.lastRtt != 0.0 && fast.lastRtt != 0.0
    requires 0 < casts.to32(fast.lastRtt) < casts.to32(slow.lastRtt)
    ensures var es := History(casts, Reordered(slow, fast, cWnd, n));
            Increases(es) == 2 + n && Improved(es, 0)
  {
    var arrivals := Reordered(slow, fast, cWnd, n);
    var es := History(casts, arrivals);
    if n == 0 {
      ReorderedStart(casts, slow, fast, cWnd);
      FifthImproves(casts.to32(slow.lastRtt), casts.to32(fast.lastRtt));
    } else {
      ReorderedHistory(casts, slow, fast, cWnd, n - 1);
      assert arrivals[..|arrivals| - 1] == Reordered(slow, fast, cWnd, n - 1);
      var before, more := History(casts, Reordered(slow, fast, cWnd, n - 1)), EventsOf(casts, arrivals[|arrivals| - 1]);
      ImprovedStays(before, more, 0);
      EventsAppend(START, before, more);
      assert more[..1] == [more[0]] && more[..1][..0] == [];
      assert Increases(more[..1]) == 0 && Increases(more) == 1;
    }
  }

  lemma {:induction false} FifthImproves(s: nat, r: nat)
    requires 0 < r < s
    ensures var es := [Acked(false, s), Increase(s), Acked(false, s), Acked(false, s), Increase(r)];
            Increases(es) == 2 && Improved(es, 0)
  {
    var es := [Acked(false, s), Increase(s), Acked(false, s), Acked(false, s), Increase(r)];
    var before := es[..4];
    assert before == [Acked(false, s), Increase(s), Acked(false, s), Acked(false, s)];
    assert Anchor(before, 3);
    assert Counts(before, 3);
    assert Improves(es, 4);
    IncreasesNext(es[..0], es[0]);
    IncreasesNext(es[..1], es[1]);
    IncreasesNext(es[..2], es[2]);
    IncreasesNext(es[..3], es[3]);
    IncreasesNext(es[..4], es[4]);
    assert forall i :: 0 <= i < 5 ==> es[..i + 1] == es[..i] + [es[i]];
    assert es[..0] == [] && es[..5] == es;
  }

  lemma IncreasesNext(es: seq<Event>, e: Event)
    ensures Increases(es + [e]) == Increases(es) + if e.Increase? then 1 else 0
  {
    assert (es + [e])[..|es|] == es;
  }

  // ----- a window that vanishes -----

  // An acknowledgement of one segment with nothing in flight, and what is measured then.
  const QUIET := Ack(1024, 10, 0, 1024, 1.0, 1.0, false)

  lemma {:induction false} QuietMeasures(casts: Casts, cWnd: nat)
    requires casts.Proper() && cWnd < TWO32
    ensures FairnessRatio(cWnd, QUIET) == 2 && MinimalWindow(QUIET) == 1
    ensures Max(RawBandwidth(casts, 1, QUIET), QUIET.initialCWnd) == 1024
    ensures LimitFits(cWnd, 2, 1024, QUIET)
    ensures RttWindow(cWnd, 2, 1024, 1, false, QUIET) == Max(cWnd / 1024, Rounded(cWnd / 4, 1))
  {
    assert Quotient(1024.0, 1.0) == 1024.0;
    assert casts.to64(1024.0) == 1024.0.Floor;
    GainShareIs(1024);
    RttLimitIsEighth(cWnd, 2, 1024);
  }

  // One acknowledgement, and the increase it asks for.
  method Quiet(cc: SplineCc, socket: Socket)
    requires cc.Valid() && cc.epoch.epp < 8 && cc.currAck <= 1 && socket.cWnd < TWO32
    modifies cc, socket
    ensures cc.Valid() && cc.epoch.epp == old(cc.epoch.epp) + 1 && cc.currAck == 1
    ensures socket.cWnd == W32(Max(old(socket.cWnd) / 1024, Rounded(old(socket.cWnd) / 4, 1)) * 1024)
  {
    cc.PktsAcked(1024, 1, 1.0);
    QuietMeasures(cc.casts, socket.cWnd);
    ghost var cWnd := socket.cWnd;
    ghost var entry := cc.IncreaseWindow(socket, QUIET);
    assert !Congested(QUIET, cc.currAck, entry);
    assert cc.probeMode == ProbeRtt;
    assert cc.fairness == 2 && cc.bw == 1024 && cc.minCwnd == 1 && cc.InIntegers(cWnd, QUIET);
    assert cc.currCwnd == RttWindow(cWnd, 2, 1024, 1, false, QUIET);
  }

  // Three of them take a window of ten segments to none, without a loss.
  method WindowVanishes(casts: Casts) returns (windows: seq<nat>)
    requires casts.Proper()
    ensures windows == [10240, 2621440, 671088640, 0]
  {
    var cc := new SplineCc(casts);
    var socket := new Socket(10240);
    windows := [socket.cWnd];
    Quiet(cc, socket);
    windows := windows + [socket.cWnd];
    Quiet(cc, socket);
    windows := windows + [socket.cWnd];
    Quiet(cc, socket);
    windows := windows + [socket.cWnd];
  }
}
