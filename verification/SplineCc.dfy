/**
The SplineCC congestion control of `src/internet/model/spline-cc.cc`: how it measures, chooses
its mode and sets the window on every acknowledgement.
*/
module SplineCc {
  import opened SplineNumbers
  import opened SplineEpochs
  import opened SplineWindows

  // The fields of the socket that the algorithm writes.
  class Socket {
    var cWnd: nat
    var pacing: bool
    var pacingRate: nat

    constructor (cWnd: nat)
      ensures this.cWnd == cWnd
    {
      this.cWnd, pacing, pacingRate := cWnd, false, 0;
    }
  }

  predicate Congested(ack: Ack, currAck: nat, currCwnd: nat) {
    || (ack.bytesInFlight > W32(currAck * ack.segmentSize) && ack.bytesInFlight > currCwnd)
    || ack.lastAckedSackedBytes < ack.segmentSize
  }

  class SplineCc {
    const casts: Casts
    var epoch: Epoch
    var probeMode: Mode
    var currentMode: Mode
    var currRtt: nat
    var throughput: nat
    var bw: nat
    var lastBw: nat
    var currCwnd: nat
    var lastCwnd: nat
    var lastMaxCwnd: nat
    var nextCwnd: nat
    var currAck: nat
    var lastAck: nat
    var pacingRate: nat
    var fairness: nat
    var minCwnd: nat

    // In every state: no bandwidth has ever been remembered, and the mode is one of three.
    ghost predicate Valid()
      reads this
    {
      && casts.Proper() && lastBw == 0
      && epoch.epp <= 8 && probeMode != ProbeBw
    }

    constructor (casts: Casts)
      requires casts.Proper()
      ensures Valid() && this.casts == casts && epoch == START && probeMode == StartProbe && currAck == 0 && lastAck == 0
    {
      this.casts := casts;
      epoch, probeMode, currentMode := START, StartProbe, StartProbe;
      currRtt, throughput, bw, lastBw, currCwnd, lastCwnd, lastMaxCwnd, nextCwnd := 0, 0, 0, 0, 0, 0, 0, 0;
      currAck, lastAck, pacingRate, fairness, minCwnd := 0, 0, 0, 0, 0;
    }

    method PktsAcked(segmentSize: nat, segmentsAcked: nat, rtt: real)
      requires Valid() && segmentsAcked < TWO32 && rtt >= 0.0
      modifies this
      ensures Valid()
      ensures probeMode == old(probeMode) && currRtt == (if segmentSize != 0 && rtt != 0.0 then casts.to32(rtt) else old(currRtt))
      ensures epoch == if segmentSize == 0 then old(epoch) else AfterPktsAcked(old(epoch), rtt == 0.0, casts.to32(rtt))
      ensures if segmentSize != 0 && rtt != 0.0 then lastAck == old(currAck) && currAck == segmentsAcked
              else lastAck == old(lastAck) && currAck == old(currAck)
    {
      if segmentSize == 0 {
        return;
      }
      if rtt == 0.0 {
        return;
      }
      currRtt := casts.to32(rtt);
      if epoch.lastMinRtt == 0 || currRtt < epoch.lastMinRtt {
        epoch := epoch.(lastMinRtt := currRtt);
      }
      lastAck := currAck;
      currAck := segmentsAcked;
    }

    method EpsilonRtt()
      modifies this`epoch
      ensures epoch == AfterEpsilon(old(epoch), currRtt)
    {
      if epoch.lastMinRtt > currRtt && currRtt > 0 {
        epoch := epoch.(lastMinRtt := currRtt);
        epoch := epoch.(eppMinRtt := W32(epoch.eppMinRtt + 1));
      }
    }

    // The estimate of the bandwidth and of the fairness, and the filter.
    method Bw(ack: Ack)
      requires ack.Valid() && ack.segmentSize > 0
      modifies this`throughput, this`bw, this`fairness, this`currentMode
      ensures bw == Filtered(RawBandwidth(casts, currAck, ack), lastBw, currRtt, epoch.lastMinRtt, ack.initialCWnd)
      ensures fairness == FairnessRatio(currCwnd, ack)
      ensures throughput == if ack.minRtt == 0.0 then 0 else casts.to64(Quotient(ack.bytesInFlight as real, ack.minRtt))
    {
      if ack.minRtt == 0.0 {
        throughput := 0;
        bw := W32(ack.initialCWnd * ack.segmentSize);
      } else {
        throughput := casts.to64(Quotient(ack.bytesInFlight as real, ack.minRtt));
        bw := casts.to64(Quotient(W32(currAck * ack.segmentSize) as real, ack.minRtt));
      }
      if ack.bytesInFlight == 0 {
        fairness := 2;
      } else {
        var numerator := W64(currCwnd * currCwnd * ack.segmentSize);
        var denominator := W64(2 * ack.bytesInFlight * ack.bytesInFlight);
        NoZeroDenominator(ack.bytesInFlight);
        fairness := W32(Div(numerator, denominator) + 1);
      }
      if W64(throughput * 12) / 16 > bw {
        currentMode := DrainProbe;
      }
      FilterBw(ack.initialCWnd);
    }

    // The filter on the estimate. With nothing remembered it only raises it to the initial
    // window; what it would do else is `FilterWouldClamp`.
    method FilterBw(initialCWnd: nat)
      modifies this`bw
      ensures bw == Filtered(old(bw), lastBw, currRtt, epoch.lastMinRtt, initialCWnd)
      ensures lastBw == 0 ==> bw >= old(bw) && bw >= initialCWnd && (bw == old(bw) || bw == initialCWnd)
    {
      if lastBw != 0 {
        var minAllowed := W64(lastBw * 3) / 4;
        if bw < minAllowed {
          bw := minAllowed;
        }
        var maxAllowed := W64(lastBw * 6) / 4;
        if bw > maxAllowed {
          bw := maxAllowed;
        }
        if currRtt > W32(epoch.lastMinRtt * 2) {
          bw := lastBw;
        }
      } else {
        bw := Max(bw, initialCWnd);
      }
    }

    method RunStartProbe(ack: Ack)
      requires ack.segmentSize > 0
      modifies this`currCwnd
      ensures currCwnd == StartWindow(old(currCwnd), StartCap(casts, fairness, bw, minCwnd, ack), currAck < lastAck, ack)
    {
      currCwnd := W32(currCwnd + ack.lastAckedSackedBytes / ack.segmentSize);
      var maxCwnd := StartCap(casts, fairness, bw, minCwnd, ack);
      if (ack.inLoss && currAck < lastAck) || currCwnd > ack.bytesInFlight / ack.segmentSize {
        currCwnd := Min(currCwnd, maxCwnd);
      } else {
        currCwnd := Max(currCwnd, maxCwnd);
      }
    }

    method RunDrainProbe()
      modifies this`currCwnd
      ensures currCwnd == DrainWindow(old(currCwnd), bw, minCwnd)
    {
      if currCwnd > bw {
        currCwnd := bw;
      }
      currCwnd := W32(currCwnd * 10) / 16;
      currCwnd := Max(currCwnd, minCwnd);
    }

    // The adjustments of the round-trip mode: more if stable, less if unfair or overloaded.
    method AdjustForRtt(socket: Socket, ack: Ack)
      requires ack.segmentSize > 0
      modifies this`currCwnd
    {
      if fairness >= 2 || W32(ack.bytesInFlight * 2) < currCwnd {
        currCwnd := Max(W32(currCwnd * 17) / 16, minCwnd);
        if currCwnd != 0 {
          return;
        }
      }
      if fairness < 2 {
        currCwnd := Max(W32(currCwnd * 8) / 16, minCwnd);
        if currCwnd != 0 {
          return;
        }
      }
      if ack.inLoss && ack.bytesInFlight > currCwnd {
        currCwnd := W32(currCwnd * 8) / 16;
        if currAck < W32(lastAck * 3) / 4 {
          currCwnd := W32(socket.cWnd / ack.segmentSize * 8) / 16;
        }
        currCwnd := Max(currCwnd, minCwnd);
      }
    }

    method PacingGainRate(socket: Socket, ack: Ack)
      modifies this`pacingRate, socket`pacing, socket`pacingRate
      ensures socket.pacing <==> currentMode != StartProbe
      ensures socket.pacingRate == pacingRate >= ack.segmentSize
      ensures currentMode != ProbeRtt ==> pacingRate == Paced(casts, bw, fairness, ack)
      ensures currentMode == ProbeRtt ==> pacingRate <= Paced(casts, bw, fairness, ack)
      ensures currentMode == ProbeRtt && pacingRate > ack.segmentSize ==> 4 * pacingRate <= 3 * RawPacing(casts, bw, fairness, ack)
    {
      if currentMode == StartProbe {
        socket.pacing := false;
      }
      if !socket.pacing && currentMode != StartProbe {
        socket.pacing := true;
      }
      pacingRate := RawPacing(casts, bw, fairness, ack);
      if currentMode == ProbeRtt {
        WrappedIsLess(pacingRate * 12);
        pacingRate := W64(pacingRate * 12) / 16;
      }
      if pacingRate < ack.segmentSize {
        pacingRate := ack.segmentSize;
      }
      socket.pacingRate := pacingRate;
    }

    // The window follows from the window in bytes, whatever the mode has made of it.
    method CwndNextGain(socket: Socket, ack: Ack)
      requires ack.segmentSize > 0
      modifies this`currCwnd
      ensures currCwnd == GainWindow(Min(Estimate(casts, socket.cWnd, bw, ack), socket.cWnd / ack.segmentSize),
                                     GainCap(casts, socket.cWnd, fairness, bw, minCwnd, ack), currAck < lastAck, ack.inLoss)
    {
      currCwnd := Estimate(casts, socket.cWnd, bw, ack);
      if currCwnd > socket.cWnd / ack.segmentSize {
        currCwnd := socket.cWnd / ack.segmentSize;
      }
      var maxCwnd := GainCap(casts, socket.cWnd, fairness, bw, minCwnd, ack);
      if ack.inLoss && currAck < lastAck {
        currCwnd := Min(currCwnd, maxCwnd);
      } else {
        currCwnd := Max(currCwnd, maxCwnd);
      }
    }

    // The choice of the mode, by way of the mode it replaces.
    method ChooseMode(congested: bool)
      modifies this`epoch, this`currentMode, this`probeMode
      ensures epoch == Closed(old(epoch)) && probeMode == Chosen(old(epoch), congested)
      ensures probeMode == ProbeRtt ==> currentMode == ProbeBw
    {
      if congested {
        currentMode := DrainProbe;
      } else {
        currentMode := ProbeBw;
      }
      if epoch.epp == 9 {
        epoch := epoch.(epp := 0);
        if epoch.eppMinRtt != 0 {
          epoch := epoch.(eppMinRtt := 0);
          currentMode := ProbeBw;
        } else {
          currentMode := ProbeRtt;
        }
      }
      match currentMode {
        case ProbeBw => probeMode := ProbeRtt;
        case ProbeRtt => probeMode := DrainProbe;
        case DrainProbe => probeMode := StartProbe;
      }
    }

    // Chooses the mode and runs it. Nothing reduces the pacing rate in the round-trip mode.
    method Probs(socket: Socket, ack: Ack) returns (ghost entry: nat)
      requires Valid() && ack.Valid() && ack.segmentSize > 0
      modifies this`epoch, this`probeMode, this`currentMode, this`currCwnd, this`pacingRate, socket`pacing, socket`pacingRate
      ensures Valid()
      ensures entry == Entry(old(probeMode), old(currCwnd), ack)
      ensures epoch == Closed(Counted(old(epoch)))
      ensures probeMode == Chosen(Counted(old(epoch)), Congested(ack, currAck, entry))
      ensures currCwnd == ModeWindow(entry, socket.cWnd, ack)
      ensures probeMode == ProbeRtt ==> socket.pacing && socket.pacingRate == Paced(casts, bw, fairness, ack)
    {
      if epoch.epp < 10 {
        epoch := epoch.(epp := epoch.epp + 1);
      }
      if probeMode == StartProbe {
        currentMode := StartProbe;
        RunStartProbe(ack);
      }
      entry := currCwnd;
      ChooseMode(Congested(ack, currAck, currCwnd));
      match probeMode {
        case StartProbe => RunStartProbe(ack);
        case ProbeRtt =>
          AdjustForRtt(socket, ack);
          PacingGainRate(socket, ack);
          CwndNextGain(socket, ack);
        case DrainProbe => RunDrainProbe();
      }
    }

    ghost function StartLimit(ack: Ack): nat
      reads this
    {
      StartCap(casts, fairness, bw, minCwnd, ack)
    }

    // The window that the chosen mode is entered with: grown first after the start mode.
    ghost function Entry(before: Mode, cwnd: nat, ack: Ack): nat
      requires ack.segmentSize > 0
      reads this
    {
      if before == StartProbe then StartWindow(cwnd, StartLimit(ack), currAck < lastAck, ack) else cwnd
    }

    // A window that was grown by what was acknowledged, and then, where nothing shrinks and no
    // more than the flight is used, raised to the limit, and elsewhere cut down to it.
    ghost predicate GrownTo(result: nat, cwnd: nat, ack: Ack)
      requires ack.segmentSize > 0
      reads this
    {
      var grown, limit := (cwnd + ack.lastAckedSackedBytes / ack.segmentSize) % TWO32, StartLimit(ack);
      && limit > 0 && (result == grown || result == limit)
      && if !(ack.inLoss && currAck < lastAck) && grown <= ack.bytesInFlight / ack.segmentSize
         then result >= grown && result >= limit
         else result <= grown && result <= limit
    }

    lemma {:induction false} StartWindowGrows(cwnd: nat, ack: Ack)
      requires ack.segmentSize > 0 && minCwnd > 0
      ensures GrownTo(StartWindow(cwnd, StartLimit(ack), currAck < lastAck, ack), cwnd, ack)
    {
      StartWindowBounds(cwnd, StartLimit(ack), currAck < lastAck, ack);
    }

    // The window that the chosen mode makes of the window it is entered with.
    ghost function ModeWindow(entry: nat, cWnd: nat, ack: Ack): nat
      requires ack.segmentSize > 0
      reads this
    {
      if probeMode == DrainProbe then DrainWindow(entry, bw, minCwnd)
      else if probeMode == StartProbe then
        StartWindow(entry, StartLimit(ack), currAck < lastAck, ack)
      else
        GainWindow(Min(Estimate(casts, cWnd, bw, ack), cWnd / ack.segmentSize),
                   GainCap(casts, cWnd, fairness, bw, minCwnd, ack), currAck < lastAck, ack.inLoss)
    }

    // What leaves no window: a shrinking loss, with less than one segment in the round-trip
    // mode, or with a window in the start mode that is zero once it has grown.
    ghost predicate Starves(entry: nat, cWnd: nat, ack: Ack)
      requires ack.segmentSize > 0
      reads this
    {
      && ack.inLoss && currAck < lastAck && probeMode != DrainProbe
      && if probeMode == StartProbe then W32(entry + ack.lastAckedSackedBytes / ack.segmentSize) == 0
         else NoSegment(casts, cWnd, bw, ack)
    }

    lemma {:induction false} ModeWindowIsZero(entry: nat, cWnd: nat, ack: Ack)
      requires Valid() && ack.Valid() && ack.segmentSize > 0 && cWnd < TWO32 && minCwnd > 0
      ensures ModeWindow(entry, cWnd, ack) == 0 <==> Starves(entry, cWnd, ack)
    {
      StartWindowBounds(entry, StartLimit(ack), currAck < lastAck, ack);
      GainWindowZero(casts, cWnd, fairness, bw, minCwnd, currAck < lastAck, ack);
    }

    // When the socket is left without a window: in each mode, if and only if the window in
    // segments is a multiple of 2^32 divided by the largest power of two in the segment size.
    // In the round-trip mode this window is given in integers where it is defined, and without
    // a shrinking loss it is at least an eighth of the bytes, times the fairness.
    lemma {:induction false} SocketWindowIsZero(entry: nat, cWnd: nat, ack: Ack)
      requires Valid() && ack.Valid() && ack.segmentSize > 0 && cWnd < TWO32 && minCwnd > 0
      ensures W32(ModeWindow(entry, cWnd, ack) * ack.segmentSize) == 0 <==> Vanishes(entry, cWnd, ack)
      ensures InIntegers(cWnd, ack) ==>
        ModeWindow(entry, cWnd, ack) == RttWindow(cWnd, fairness, bw, minCwnd, currAck < lastAck, ack)
      ensures InIntegers(cWnd, ack) && Multiplies(cWnd, fairness, bw, ack) && !(ack.inLoss && currAck < lastAck) ==>
        ModeWindow(entry, cWnd, ack) >= fairness * cWnd / 8
    {
      WrapsToZeroIff(ModeWindow(entry, cWnd, ack), ack.segmentSize);
      if InIntegers(cWnd, ack) {
        GainWindowIsWhole(casts, cWnd, fairness, bw, minCwnd, currAck < lastAck, ack);
      }
    }

    ghost predicate InIntegers(cWnd: nat, ack: Ack)
      reads this
    {
      probeMode != DrainProbe && probeMode != StartProbe && LimitFits(cWnd, fairness, bw, ack)
    }

    // The window of the mode that is run, in segments, is such a multiple.
    ghost predicate Vanishes(entry: nat, cWnd: nat, ack: Ack)
      requires ack.segmentSize > 0
      reads this
    {
      var unit, shrinking := Unit(TWO32, ack.segmentSize), currAck < lastAck;
      if probeMode == DrainProbe then DrainWindow(entry, bw, minCwnd) % unit == 0
      else if probeMode == StartProbe then StartWindow(entry, StartLimit(ack), shrinking, ack) % unit == 0
      else if LimitFits(cWnd, fairness, bw, ack) then RttWindow(cWnd, fairness, bw, minCwnd, shrinking, ack) % unit == 0
      else ModeWindow(entry, cWnd, ack) % unit == 0
    }

    // What an increase measures of a window of `cwnd` segments: fairness, bandwidth, and the
    // minimal window, an eighth of the initial one.
    ghost predicate Measured(cwnd: nat, ack: Ack)
      reads this
    {
      && IsFairness(fairness, cwnd, ack) && IsBandwidth(bw, currAck, ack)
      && if ack.initialCWnd < 8 then minCwnd == 10 else 8 * minCwnd <= ack.initialCWnd < 8 * minCwnd + 8
    }

    // What the algorithm measures before it chooses a mode.
    method Measure(ack: Ack)
      requires Valid() && ack.Valid() && ack.segmentSize > 0
      modifies this`minCwnd, this`epoch, this`throughput, this`bw, this`fairness, this`currentMode
      ensures Valid() && minCwnd == MinimalWindow(ack)
      ensures epoch == AfterEpsilon(old(epoch), currRtt)
      ensures bw == Max(RawBandwidth(casts, currAck, ack), ack.initialCWnd)
      ensures fairness == FairnessRatio(currCwnd, ack)
      ensures throughput == if ack.minRtt == 0.0 then 0 else casts.to64(Quotient(ack.bytesInFlight as real, ack.minRtt))
    {
      minCwnd := ack.initialCWnd / 8;
      minCwnd := if minCwnd != 0 then minCwnd else 10;
      EpsilonRtt();
      Bw(ack);
    }

    // The algorithm on one acknowledgement, with the window of the socket as its start.
    method SplineCcAlgo(socket: Socket, ack: Ack) returns (ghost entry: nat)
      requires Valid() && ack.Valid() && ack.segmentSize > 0
      requires currCwnd == Div(socket.cWnd, ack.segmentSize)
      modifies this, socket
      ensures Valid() && minCwnd == MinimalWindow(ack)
      ensures fairness == FairnessRatio(old(currCwnd), ack)
      ensures entry == Entry(old(probeMode), old(currCwnd), ack)
      ensures epoch == Closed(Counted(AfterEpsilon(old(epoch), old(currRtt))))
      ensures probeMode == Chosen(Counted(AfterEpsilon(old(epoch), old(currRtt))), Congested(ack, currAck, entry))
      ensures bw == Max(RawBandwidth(casts, currAck, ack), ack.initialCWnd)
      ensures currCwnd == ModeWindow(entry, old(socket.cWnd), ack)
      ensures probeMode == ProbeRtt ==> socket.pacing && socket.pacingRate == Paced(casts, bw, fairness, ack)
      ensures socket.cWnd == W32(currCwnd * ack.segmentSize)
      ensures currAck == old(currAck) && lastAck == old(lastAck) && lastCwnd == old(lastCwnd) && currRtt == old(currRtt)
      ensures throughput == if ack.minRtt == 0.0 then 0 else casts.to64(Quotient(ack.bytesInFlight as real, ack.minRtt))
      ensures lastMaxCwnd == Max(old(lastMaxCwnd), currCwnd)
      ensures nextCwnd == if old(nextCwnd) == 0 then currCwnd else old(nextCwnd)
    {
      Measure(ack);
      entry := Probs(socket, ack);
      socket.cWnd := W32(currCwnd * ack.segmentSize);
      if lastMaxCwnd < currCwnd {
        lastMaxCwnd := currCwnd;
      }
      if nextCwnd == 0 {
        nextCwnd := currCwnd;
      }
    }

    // One acknowledgement that increases the window. `entry` is the window, in segments, that
    // the chosen mode starts from: that of the socket, grown first if the mode was START_PROBE.
    method IncreaseWindow(socket: Socket, ack: Ack) returns (ghost entry: nat)
      requires Valid() && ack.Valid() && socket.cWnd < TWO32
      modifies this, socket
      ensures Valid()
      ensures ack.segmentSize == 0 ==>
        epoch == old(epoch) && probeMode == old(probeMode) && currCwnd == old(currCwnd) && socket.cWnd == old(socket.cWnd)
      ensures ack.segmentSize != 0 ==>
        var before := Counted(AfterEpsilon(old(epoch), casts.to32(ack.lastRtt)));
        epoch == Closed(before) && probeMode == Chosen(before, Congested(ack, currAck, entry))
      ensures ack.segmentSize != 0 ==> bw == Max(RawBandwidth(casts, currAck, ack), ack.initialCWnd)
      ensures ack.segmentSize != 0 ==>
        minCwnd == MinimalWindow(ack) && fairness == FairnessRatio(Div(old(socket.cWnd), ack.segmentSize), ack)
      ensures ack.segmentSize != 0 ==> Measured(Div(old(socket.cWnd), ack.segmentSize), ack)
      ensures ack.segmentSize != 0 ==> lastCwnd == old(currCwnd) && currRtt == casts.to32(ack.lastRtt)
      ensures ack.segmentSize != 0 ==> lastMaxCwnd == Max(old(lastMaxCwnd), currCwnd)
      ensures ack.segmentSize != 0 ==> nextCwnd == if old(nextCwnd) == 0 then currCwnd else old(nextCwnd)
      ensures currAck == old(currAck) && lastAck == old(lastAck)
      ensures ack.segmentSize != 0 ==> entry == Entry(old(probeMode), Div(old(socket.cWnd), ack.segmentSize), ack)
      ensures ack.segmentSize != 0 ==> currCwnd == ModeWindow(entry, old(socket.cWnd), ack)
      ensures ack.segmentSize != 0 ==> socket.cWnd == W32(currCwnd * ack.segmentSize)
      ensures ack.segmentSize != 0 && probeMode == DrainProbe ==> currCwnd >= minCwnd > 0
      ensures ack.segmentSize != 0 && probeMode == StartProbe ==> GrownTo(currCwnd, entry, ack)
      ensures ack.segmentSize != 0 ==>
        var whole := Div(old(socket.cWnd), ack.segmentSize);
        if old(probeMode) == StartProbe then GrownTo(entry, whole, ack) else entry == whole
      ensures ack.segmentSize != 0 && probeMode == ProbeRtt ==>
        socket.pacing && socket.pacingRate == Paced(casts, bw, fairness, ack) && IsPacing(socket.pacingRate, bw, fairness, ack)
      ensures ack.segmentSize != 0 && InIntegers(old(socket.cWnd), ack) ==>
        currCwnd == RttWindow(old(socket.cWnd), fairness, bw, minCwnd, currAck < lastAck, ack)
      ensures ack.segmentSize != 0 && InIntegers(old(socket.cWnd), ack)
        && Multiplies(old(socket.cWnd), fairness, bw, ack) && !(ack.inLoss && currAck < lastAck)
        ==> currCwnd >= fairness * old(socket.cWnd) / 8
      ensures ack.segmentSize != 0 ==> (socket.cWnd == 0 <==> Vanishes(entry, old(socket.cWnd), ack))
    {
      if ack.segmentSize == 0 {
        return 0;
      }
      currRtt := casts.to32(ack.lastRtt);
      lastCwnd := currCwnd;
      currCwnd := Div(socket.cWnd, ack.segmentSize);
      ghost var cWnd := socket.cWnd;
      entry := SplineCcAlgo(socket, ack);
      FairnessIs(Div(cWnd, ack.segmentSize), ack);
      BandwidthIs(casts, currAck, ack);
      MinimalWindowIs(ack);
      PacingIs(casts, bw, fairness, ack);
      SocketWindowIsZero(entry, cWnd, ack);
      StartWindowGrows(entry, ack);
      StartWindowGrows(Div(cWnd, ack.segmentSize), ack);
    }
  }
}
