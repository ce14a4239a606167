/**
The mode machine of `src/internet/model/spline-cc.cc`: epochs of nine increases, the
round-trip times they see, and the mode that each increase executes, over whole runs.
*/
module SplineEpochs {
  import opened SplineNumbers

  datatype Mode = StartProbe | ProbeBw | ProbeRtt | DrainProbe

  // An epoch: the increases in it, how many of them saw a new minimal round-trip time, and
  // the least round-trip time that is remembered, in whole seconds, zero if there is none.
  datatype Epoch = Epoch(epp: nat, eppMinRtt: nat, lastMinRtt: nat)

  const START := Epoch(0, 0, 0)

  function AfterPktsAcked(c: Epoch, rttIsZero: bool, seconds: nat): Epoch {
    if rttIsZero then c
    else if c.lastMinRtt == 0 || seconds < c.lastMinRtt then c.(lastMinRtt := seconds)
    else c
  }

  function AfterEpsilon(c: Epoch, seconds: nat): Epoch {
    if c.lastMinRtt > seconds && seconds > 0 then
      c.(lastMinRtt := seconds, eppMinRtt := W32(c.eppMinRtt + 1))
    else c
  }

  function Counted(c: Epoch): Epoch {
    c.(epp := if c.epp < 10 then c.epp + 1 else c.epp)
  }

  // An epoch ends with its ninth increase.
  function Closed(c: Epoch): Epoch {
    if c.epp == 9 then c.(epp := 0, eppMinRtt := 0) else c
  }

  // The mode: at the end of an epoch it depends on the round-trip times, elsewhere on
  // congestion only.
  function Chosen(c: Epoch, congested: bool): Mode {
    if c.epp == 9 then if c.eppMinRtt != 0 then ProbeRtt else DrainProbe
    else if congested then StartProbe
    else ProbeRtt
  }

  // What happens to a connection, as far as the modes are concerned: an acknowledgement is
  // reported with its round-trip time, or the window is increased, which reads one itself.
  datatype Event =
    | Acked(rttIsZero: bool, seconds: nat)
    | Increase(read: nat)

  function AfterEvent(c: Epoch, e: Event): Epoch {
    match e
    case Acked(z, s) => AfterPktsAcked(c, z, s)
    case Increase(r) => Closed(Counted(AfterEpsilon(c, r)))
  }

  function AfterEvents(c: Epoch, es: seq<Event>): Epoch {
    if es == [] then c else AfterEvent(AfterEvents(c, es[..|es| - 1]), es[|es| - 1])
  }

  // The mode that an increase executes after the events `es`.
  function ModeAfter(es: seq<Event>, read: nat, congested: bool): Mode {
    Chosen(Counted(AfterEpsilon(AfterEvents(START, es), read)), congested)
  }

  function Increases(es: seq<Event>): nat {
    if es == [] then 0 else Increases(es[..|es| - 1]) + if es[|es| - 1].Increase? then 1 else 0
  }

  lemma {:induction false} EventsAppend(c: Epoch, es: seq<Event>, more: seq<Event>)
    ensures AfterEvents(c, es + more) == AfterEvents(AfterEvents(c, es), more)
    ensures Increases(es + more) == Increases(es) + Increases(more)
  {
    if more == [] {
      assert es + more == es;
    } else {
      var n := |more| - 1;
      EventsAppend(c, es, more[..n]);
      assert (es + more)[..|es + more| - 1] == es + more[..n];
    }
  }

  lemma {:induction false} IncreasesGrow(es: seq<Event>, i: nat)
    requires i <= |es|
    ensures Increases(es[..i]) <= Increases(es)
  {
    assert es == es[..i] + es[i..];
    EventsAppend(START, es[..i], es[i..]);
  }

  lemma EpochNext(n: nat)
    ensures (n + 1) % 9 == if n % 9 == 8 then 0 else n % 9 + 1
  {
  }

  // ----- which round-trip time is remembered -----

  function Heard(e: Event): nat {
    match e
    case Acked(z, s) => if z then 0 else s
    case Increase(r) => r
  }

  // A report of less than a second makes the algorithm forget what it remembered.
  predicate Forgets(e: Event) {
    e.Acked? && !e.rttIsZero && e.seconds == 0
  }

  ghost predicate Anchor(es: seq<Event>, f: int) {
    0 <= f < |es| && es[f].Acked? && Heard(es[f]) > 0 && forall i :: f < i < |es| ==> !Forgets(es[i])
  }

  // Event `j` is one whose round-trip time counts: no report of less than a second came
  // later, and a report of a second or more came before it, or it is one.
  ghost predicate Counts(es: seq<Event>, j: int) {
    0 <= j < |es| && Heard(es[j]) > 0 && exists f :: f <= j && Anchor(es, f)
  }

  lemma {:induction false} CountsNext(es: seq<Event>, e: Event, j: int)
    requires 0 <= j <= |es|
    ensures Counts(es + [e], j) <==>
      if j < |es| then Counts(es, j) && !Forgets(e)
      else Heard(e) > 0 && (e.Acked? || exists i :: Counts(es, i))
  {
    var es' := es + [e];
    assert forall f :: 0 <= f < |es| ==> es'[f] == es[f];
    forall f | 0 <= f < |es| ensures Anchor(es', f) <==> Anchor(es, f) && !Forgets(e) {
      if Anchor(es', f) {
        assert es'[|es|] == e;
        assert forall i :: f < i < |es| ==> !Forgets(es'[i]);
      }
    }
    if j == |es| {
      if Heard(e) > 0 && e.Acked? {
        assert Anchor(es', j);
      }
      if i :| Counts(es, i) {
        assert Heard(e) > 0 ==> !Forgets(e);
        var f :| f <= i && Anchor(es, f);
        assert Heard(e) > 0 ==> Anchor(es', f);
      }
      if f :| f <= j && Anchor(es', f) && f < |es| {
        assert Counts(es, f);
      }
    }
  }

  // The least of the round-trip times that count, zero if there are none.
  ghost predicate IsLeast(es: seq<Event>, least: nat) {
    && (least == 0 <==> forall j :: !Counts(es, j))
    && (least > 0 ==> exists j :: Counts(es, j) && Heard(es[j]) == least)
    && (forall j :: Counts(es, j) ==> least <= Heard(es[j]))
  }

  // That is what is remembered.
  lemma {:induction false} RememberedIsLeast(es: seq<Event>)
    ensures IsLeast(es, AfterEvents(START, es).lastMinRtt)
  {
    if es != [] {
      var n := |es| - 1;
      RememberedIsLeast(es[..n]);
      LastApart(es);
      LeastNext(es[..n], AfterEvents(START, es[..n]), es[n]);
    }
  }

  lemma LastApart(es: seq<Event>)
    requires es != []
    ensures es == es[..|es| - 1] + [es[|es| - 1]]
  {
  }

  lemma {:induction false} LeastNext(es: seq<Event>, c: Epoch, e: Event)
    requires IsLeast(es, c.lastMinRtt)
    ensures IsLeast(es + [e], AfterEvent(c, e).lastMinRtt)
  {
    var es', least' := es + [e], AfterEvent(c, e).lastMinRtt;
    CountsNext(es, e, |es|);
    CountsBefore(es, e);
    if Forgets(e) {
      LeastGone(es', least');
    } else if Heard(e) == 0 || (e.Increase? && c.lastMinRtt == 0) {
      assert least' == c.lastMinRtt;
      LeastKept(es, es', c.lastMinRtt);
    } else {
      LeastAdded(es, es', c.lastMinRtt);
      assert IsLeast(es', least') by {
        assert least' == if c.lastMinRtt == 0 || Heard(es'[|es|]) < c.lastMinRtt then Heard(es'[|es|]) else c.lastMinRtt;
      }
    }
  }

  lemma {:induction false} CountsBefore(es: seq<Event>, e: Event)
    ensures forall j :: Counts(es + [e], j) ==> Counts(es, j) || j == |es|
    ensures !Forgets(e) ==> forall j :: Counts(es, j) ==> Counts(es + [e], j) && Heard((es + [e])[j]) == Heard(es[j])
    ensures Forgets(e) ==> forall j :: !Counts(es + [e], j)
  {
    forall j | 0 <= j <= |es|
      ensures Counts(es + [e], j) ==> !Forgets(e) && (Counts(es, j) || j == |es|)
      ensures Counts(es, j) && !Forgets(e) ==> Counts(es + [e], j) && Heard((es + [e])[j]) == Heard(es[j])
    {
      CountsNext(es, e, j);
    }
  }

  lemma LeastGone(es: seq<Event>, least: nat)
    requires least == 0 && forall j :: !Counts(es, j)
    ensures IsLeast(es, least)
  {
  }

  lemma {:induction false} LeastKept(es: seq<Event>, es': seq<Event>, least: nat)
    requires IsLeast(es, least)
    requires forall j :: Counts(es, j) ==> Counts(es', j) && Heard(es'[j]) == Heard(es[j])
    requires forall j :: Counts(es', j) ==> Counts(es, j)
    ensures IsLeast(es', least)
  {
    if least > 0 {
      var j :| Counts(es, j) && Heard(es[j]) == least;
      assert Counts(es', j);
    }
  }

  lemma {:induction false} LeastAdded(es: seq<Event>, es': seq<Event>, least: nat)
    requires IsLeast(es, least)
    requires forall j :: Counts(es, j) ==> Counts(es', j) && Heard(es'[j]) == Heard(es[j])
    requires forall j :: Counts(es', j) ==> Counts(es, j) || j == |es|
    requires Counts(es', |es|)
    ensures IsLeast(es', if least == 0 || Heard(es'[|es|]) < least then Heard(es'[|es|]) else least)
  {
    if least > 0 {
      var j :| Counts(es, j) && Heard(es[j]) == least;
      assert Counts(es', j);
    }
  }

  // What a report does to the time that is remembered: one without a round-trip time nothing,
  // one of less than a second makes it forgotten, and the first after that is remembered.
  lemma {:induction false} ReportsAre(es: seq<Event>, seconds: nat)
    ensures AfterEvents(START, es + [Acked(true, seconds)]) == AfterEvents(START, es)
    ensures AfterEvents(START, es + [Acked(false, 0)]).lastMinRtt == 0
    ensures AfterEvents(START, es + [Acked(false, 0), Acked(false, seconds)]).lastMinRtt == seconds
  {
    var forgotten := es + [Acked(false, 0)];
    assert (es + [Acked(true, seconds)])[..|es|] == es && forgotten[..|es|] == es;
    assert (es + [Acked(false, 0), Acked(false, seconds)])[..|es| + 1] == forgotten;
  }

  // ----- epochs over a whole run -----

  // The round-trip time `read` is below every one that counts, of which there are some.
  ghost predicate Beats(es: seq<Event>, read: nat) {
    read > 0 && (exists j :: Counts(es, j)) && forall j :: Counts(es, j) ==> read < Heard(es[j])
  }

  ghost predicate Improves(es: seq<Event>, i: int) {
    0 <= i < |es| && es[i].Increase? && Beats(es[..i], es[i].read)
  }

  // Some increase after the first `from` read a new minimum.
  ghost predicate Improved(es: seq<Event>, from: int) {
    exists i :: Improves(es, i) && from <= Increases(es[..i])
  }

  lemma {:induction false} BeatsMeaning(es: seq<Event>, read: nat)
    ensures Beats(es, read) <==> 0 < read < AfterEvents(START, es).lastMinRtt
  {
    RememberedIsLeast(es);
  }

  lemma {:induction false} ImprovedNext(es: seq<Event>, e: Event, from: int)
    ensures Improved(es + [e], from) <==>
      || Improved(es, from)
      || (e.Increase? && from <= Increases(es) && 0 < e.read < AfterEvents(START, es).lastMinRtt)
  {
    var es', n := es + [e], |es|;
    assert es'[..n] == es;
    forall i | 0 <= i < n ensures Improves(es', i) == Improves(es, i) && es'[..i] == es[..i] {
      assert es'[..i] == es[..i];
    }
    if e.Increase? {
      BeatsMeaning(es, e.read);
      assert Improves(es', n) <==> Beats(es, e.read);
    }
    assert Improved(es, from) ==> Improved(es', from) by {
      if i :| Improves(es, i) && from <= Increases(es[..i]) {
        assert Improves(es', i);
      }
    }
  }

  lemma {:induction false} ImprovedStays(es: seq<Event>, more: seq<Event>, from: int)
    requires Improved(es, from)
    ensures Improved(es + more, from)
  {
    var i :| Improves(es, i) && from <= Increases(es[..i]);
    assert (es + more)[..i] == es[..i];
    assert Improves(es + more, i);
  }

  lemma {:induction false} NoneImprovedYet(es: seq<Event>, from: int)
    requires from > Increases(es)
    ensures !Improved(es, from)
  {
    forall i | Improves(es, i) ensures Increases(es[..i]) < from {
      IncreasesGrow(es, i);
    }
  }

  // The epoch after a run: its counter is the number of increases modulo nine, and it has
  // counted a new minimum if and only if an increase of the epoch read less than all that
  // counts.
  ghost predicate EpochOf(es: seq<Event>, c: Epoch) {
    && c.epp == Increases(es) % 9
    && c.eppMinRtt <= c.epp
    && (c.eppMinRtt != 0 <==> Improved(es, Increases(es) - c.epp))
  }

  lemma {:induction false} EpochStep(es: seq<Event>, c: Epoch, e: Event)
    requires c == AfterEvents(START, es) && EpochOf(es, c)
    ensures EpochOf(es + [e], AfterEvent(c, e))
  {
    var es', c', count := es + [e], AfterEvent(c, e), Increases(es);
    assert es'[..|es|] == es;
    ImprovedNext(es, e, count - c.epp);
    if e.Increase? {
      EpochNext(count);
      assert Increases(es') == count + 1;
      if c.epp == 8 {
        NoneImprovedYet(es, count + 1);
        ImprovedNext(es, e, count + 1);
        assert c'.epp == 0 && c'.eppMinRtt == 0;
      } else {
        assert Increases(es') - c'.epp == count - c.epp;
      }
    } else {
      assert Increases(es') == count;
    }
  }

  // Whatever is reported and read, in every run.
  lemma {:induction false} EpochMeaning(es: seq<Event>)
    ensures EpochOf(es, AfterEvents(START, es))
  {
    if es != [] {
      var before := es[..|es| - 1];
      LastApart(es);
      EpochMeaning(before);
      EpochStep(before, AfterEvents(START, before), es[|es| - 1]);
    }
  }

  // The mode of every increase of every run. The ninth of an epoch executes DRAIN_PROBE if
  // and only if no increase of the epoch read a new minimum, else PROBE_RTT; the others
  // START_PROBE under congestion and PROBE_RTT without; none executes PROBE_BW.
  lemma {:induction false} ModeOfEveryIncrease(es: seq<Event>, read: nat, congested: bool)
    ensures ModeAfter(es, read, congested)
         == if (Increases(es) + 1) % 9 == 0 then
              if Improved(es + [Increase(read)], Increases(es) - 8) then ProbeRtt else DrainProbe
            else if congested then StartProbe
            else ProbeRtt
  {
    EpochMeaning(es);
    EpochNext(Increases(es));
    ImprovedNext(es, Increase(read), Increases(es) - 8);
  }

  // The same of the events up to and including an increase and the mode it executed.
  ghost predicate ModeFits(es: seq<Event>, mode: Mode) {
    && (mode == DrainProbe <==> Increases(es) % 9 == 0 && !Improved(es, Increases(es) - 9))
    && (Increases(es) % 9 == 0 && mode != DrainProbe ==> mode == ProbeRtt)
  }

  lemma {:induction false} NinthIncrease(es: seq<Event>, read: nat, congested: bool)
    ensures ModeFits(es + [Increase(read)], ModeAfter(es, read, congested))
  {
    EventsAppend(START, es, [Increase(read)]);
    AllIncreases([Increase(read)]);
    ModeOfEveryIncrease(es, read, congested);
  }

  // Every increase follows the report of the round-trip time that it reads.
  ghost predicate AllReported(es: seq<Event>) {
    forall i :: 0 <= i < |es| && es[i].Increase? ==> FollowsReport(es, i)
  }

  predicate FollowsReport(es: seq<Event>, i: int)
    requires 0 <= i < |es| && es[i].Increase?
  {
    i > 0 && es[i - 1].Acked? && Heard(es[i - 1]) == es[i].read
  }

  // Then no epoch ever sees a new minimum, because the report has taken it.
  lemma {:induction false} EpochsAreBlind(es: seq<Event>, from: int)
    requires AllReported(es)
    ensures !Improved(es, from)
  {
    forall i | 0 <= i < |es| ensures !Improves(es, i) {
      if es[i].Increase? && es[i].read > 0 {
        assert FollowsReport(es, i);
        assert Anchor(es[..i], i - 1);
        assert Counts(es[..i], i - 1);
      }
    }
  }

  lemma {:induction false} AllIncreases(es: seq<Event>)
    requires forall i :: 0 <= i < |es| ==> es[i].Increase?
    ensures Increases(es) == |es|
  {
    if es != [] {
      AllIncreases(es[..|es| - 1]);
    }
  }
}
