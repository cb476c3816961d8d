/** A monitor gadget of an inventory GUI: a latch that records whether the
    gadget must be repainted, so that repeated repaint requests between two
    repaints cost one repaint. */
module Gadgets {

  /** The gadget's state: whether a repaint is pending, and how many times
      the subclass's repaint() has been called so far. */
  datatype Latch = Latch(needed: bool, repaints: nat)

  /** repaintNeeded(): the flag is set and nothing else changes. */
  function AfterRepaintNeeded(l: Latch): (r: Latch)
    ensures r.needed && r.repaints == l.repaints
  {
    l.(needed := true)
  }

  /** doRepaint(): repaint() is called exactly when the flag was set, and the
      flag is clear afterwards. */
  function AfterDoRepaint(l: Latch): (r: Latch)
    ensures !r.needed
    ensures r.repaints == (if l.needed then l.repaints + 1 else l.repaints)
  {
    if l.needed then Latch(false, l.repaints + 1) else l
  }

  /** A second doRepaint with no request in between does nothing. */
  lemma DoRepaintIdempotent(l: Latch)
    ensures AfterDoRepaint(AfterDoRepaint(l)) == AfterDoRepaint(l)
    ensures AfterDoRepaint(AfterDoRepaint(l)).repaints <= l.repaints + 1
  {
  }

  datatype Event = RepaintNeeded | DoRepaint

  function Run(l: Latch, events: seq<Event>): Latch
    decreases |events|
  {
    if events == [] then l
    else Run(if events[0].RepaintNeeded? then AfterRepaintNeeded(l) else AfterDoRepaint(l), events[1..])
  }

  function Requests(events: seq<Event>): nat {
    if events == [] then 0 else (if events[0].RepaintNeeded? then 1 else 0) + Requests(events[1..])
  }

  /** Over any run the gadget repaints at most once per request, plus once
      for a request pending at the start. */
  lemma {:induction false} RepaintsAtMostRequests(l: Latch, events: seq<Event>)
    ensures Run(l, events).repaints <= l.repaints + (if l.needed then 1 else 0) + Requests(events)
    ensures Run(l, events).repaints >= l.repaints
    decreases |events|
  {
    if events != [] {
      var next := if events[0].RepaintNeeded? then AfterRepaintNeeded(l) else AfterDoRepaint(l);
      RepaintsAtMostRequests(next, events[1..]);
    }
  }

  class MonitorGadget {
    var repaintNeeded: bool
    var repaints: nat

    function State(): Latch
      reads this
    {
      Latch(repaintNeeded, repaints)
    }

    /** A new gadget needs its first repaint. */
    constructor ()
      ensures State() == Latch(true, 0)
    {
      repaintNeeded := true;
      repaints := 0;
    }

    method RepaintNeeded()
      modifies this
      ensures State() == AfterRepaintNeeded(old(State()))
    {
      repaintNeeded := true;
    }

    method DoRepaint()
      modifies this
      ensures State() == AfterDoRepaint(old(State()))
    {
      if repaintNeeded {
        repaints := repaints + 1;
        repaintNeeded := false;
      }
    }
  }

  /** A client: two doRepaint calls in a row repaint at most once. */
  method RepaintTwice(g: MonitorGadget)
    modifies g
    ensures g.repaints <= old(g.repaints) + 1 && !g.repaintNeeded
  {
    g.DoRepaint();
    g.DoRepaint();
  }
}
