/** What decoding comes to, and how far that is fixed before it is known how the calls are split. */
module Outcomes {
  import opened Rotations
  import opened Bits

  /** The end of the data, an error, or input that ends too early, with all output up to there. A byte copied from further
      back than the window reaches is a Far point: decoding is refused there or goes on, as the output is still at hand. */
  datatype Outcome =
    | Done(out: seq<Byte>, rest: bits)
    | Invalid(out: seq<Byte>)
    | Cut(out: seq<Byte>)
    | Far(out: seq<Byte>, dist: nat, on: Outcome)

  /** With no copy refused at a Far point. */
  function Last(o: Outcome): (r: Outcome)
    ensures !r.Far?
  {
    if o.Far? then Last(o.on) else o
  }

  /** Bits left at the end. */
  function Left(o: Outcome): nat {
    var l := Last(o);
    if l.Done? then |l.rest| else 0
  }

  /** Output is only ever added to. */
  predicate Grows(t: seq<Byte>, o: Outcome)
    decreases o
  {
    t <= o.out && (o.Far? ==> Grows(o.out, o.on))
  }

  /** What a call of inflate answers that can reach back over all output but the first `lost` bytes. */
  function Answer(lost: int, o: Outcome): Outcome {
    if !o.Far? then o
    else if o.dist > |o.out| - lost then Invalid(o.out)
    else Answer(lost, o.on)
  }

  /** What is still to come of a within such a call, some Far points passed or one of them refused. */
  predicate Keeps(lost: int, a: Outcome, b: Outcome) {
    a == b || (a.Far? && if a.dist > |a.out| - lost then b == Invalid(a.out) else Keeps(lost, a.on, b))
  }

  /** The same over calls that differ in how far they reach. */
  predicate Leads(a: Outcome, b: Outcome) {
    a == b || (a.Far? && (b == Invalid(a.out) || Leads(a.on, b)))
  }

  lemma {:induction false} KeepsTwice(lost: int, a: Outcome, b: Outcome, c: Outcome)
    requires Keeps(lost, a, b) && Keeps(lost, b, c)
    ensures Keeps(lost, a, c)
  {
    if a != b && a.dist <= |a.out| - lost { KeepsTwice(lost, a.on, b, c); }
  }

  /** A step within a call does not change its answer. */
  lemma {:induction false} KeepsAnswer(lost: int, a: Outcome, b: Outcome)
    requires Keeps(lost, a, b)
    ensures Answer(lost, a) == Answer(lost, b)
  {
    if a != b && a.dist <= |a.out| - lost { KeepsAnswer(lost, a.on, b); }
  }

  lemma {:induction false} KeepsLeads(lost: int, a: Outcome, b: Outcome)
    requires Keeps(lost, a, b)
    ensures Leads(a, b)
  {
    if a != b && a.dist <= |a.out| - lost { KeepsLeads(lost, a.on, b); }
  }

  lemma {:induction false} LeadsTwice(a: Outcome, b: Outcome, c: Outcome)
    requires Leads(a, b) && Leads(b, c)
    ensures Leads(a, c)
  {
    if a != b && b != Invalid(a.out) { LeadsTwice(a.on, b, c); }
  }

  lemma {:induction false} GrowsLast(t: seq<Byte>, o: Outcome)
    requires Grows(t, o)
    ensures t <= Last(o).out
    decreases o
  {
    if o.Far? { GrowsLast(o.out, o.on); }
  }

  lemma GrowsMore(t: seq<Byte>, u: seq<Byte>, o: Outcome)
    requires t <= u && Grows(u, o)
    ensures Grows(t, o)
  {}

  /** Output is refused at a Far point, with the output reached there. */
  predicate RefusedAt(o: Outcome, out: seq<Byte>) {
    o.Far? && (o.out == out || RefusedAt(o.on, out))
  }

  /** Whatever is refused, the output is the front of what it would have been. */
  lemma {:induction false} LeadsWithin(t: seq<Byte>, a: Outcome, b: Outcome)
    requires Leads(a, b) && Grows(t, a)
    ensures Last(b).out <= Last(a).out
    ensures Last(b) == Last(a) || (Last(b).Invalid? && RefusedAt(a, Last(b).out))
    decreases a
  {
    if a != b {
      GrowsLast(t, a);
      if b == Invalid(a.out) { GrowsLast(a.out, a.on); } else { LeadsWithin(a.out, a.on, b); }
    }
  }
}
