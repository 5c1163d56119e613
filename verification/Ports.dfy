/**
 The sequence numbers behind one task's queue, for runs that speak of the queue as a sequence of messages.
 A heap may serve any node that the comparator lets lead.
 */
module Ports {
  import opened Messages
  import opened Sequences
  import opened StableQueue
  import opened NodeHeap
  import opened ServiceOrder

  /** The numbers of the waiting messages in arrival order, and the number for the next one. */
  datatype Port = Port(numbers: seq<nat>, counter: nat)

  const CLOSED := Port([], 0)

  /** What a step does to one queue; zeroed: the dequeue left the queue empty and resets the counter. */
  datatype Effect = Untouched | Arrived | Served(k: nat, zeroed: bool) | FoundEmpty

  function Numbered(box: seq<Msg>, numbers: seq<nat>): (nodes: seq<Node>)
    requires |box| == |numbers|
    ensures |nodes| == |box|
    ensures forall i :: 0 <= i < |box| ==> nodes[i] == Node(box[i], numbers[i])
  {
    seq(|box|, i requires 0 <= i < |box| => Node(box[i], numbers[i]))
  }

  /** The k-th of these messages, under these numbers, may be at the root. */
  predicate Leads(box: seq<Msg>, numbers: seq<nat>, k: nat) {
    k < |box| == |numbers| && ServedFirst(Numbered(box, numbers), k)
  }

  predicate Allowed(box: seq<Msg>, port: Port, e: Effect) {
    match e
    case Served(k, zeroed) => Leads(box, port.numbers, k) && (zeroed ==> |box| == 1)
    case FoundEmpty => box == []
    case _ => true
  }

  function After(port: Port, e: Effect): Port {
    match e
    case Untouched => port
    case Arrived =>
      Port(port.numbers + [port.counter], (port.counter + 1) % SEQUENCE_MODULUS)
    case Served(k, zeroed) =>
      var left := if k < |port.numbers| then RemoveAt(port.numbers, k) else port.numbers;
      if zeroed then Port(left, 0) else port.(numbers := left)
    case FoundEmpty => port.(counter := 0)
  }

  /** Of n arrivals since the counter was last zeroed, how many there are after the effect. */
  function Counted(n: nat, e: Effect): nat {
    if (e.Served? && e.zeroed) || e.FoundEmpty? then 0 else n + if e.Arrived? then 1 else 0
  }

  /** The messages after the effect, m being the one that arrives. */
  ghost predicate Follows(box: seq<Msg>, e: Effect, box': seq<Msg>) {
    match e
    case Arrived => exists m :: box' == box + [m]
    case Served(k, _) => k < |box| && box' == RemoveAt(box, k)
    case _ => box' == box
  }

  /** The numbers are arrival ordinals among the n arrivals since the counter was last zeroed. */
  ghost predicate InStep(box: seq<Msg>, port: Port, n: nat) {
    && |box| == |port.numbers|
    && port.counter == n % SEQUENCE_MODULUS
    && (forall i :: 0 <= i < |box| ==> port.numbers[i] < n)
    && (forall i, j :: 0 <= i < j < |box| ==> port.numbers[i] < port.numbers[j])
  }

  lemma NumbersWithout(numbers: seq<nat>, k: nat)
    requires k < |numbers|
    ensures forall i :: 0 <= i < |numbers| - 1 ==> RemoveAt(numbers, k)[i] == numbers[if i < k then i else i + 1]
  {
  }

  lemma AllowedInRange(box: seq<Msg>, port: Port, e: Effect)
    requires e.Served? && Allowed(box, port, e)
    ensures e.k < |box| == |port.numbers|
  {
  }

  /** Within 2^32 pushes since the counter was zeroed, every effect keeps the numbers in step with arrival. */
  lemma InStepKept(box: seq<Msg>, port: Port, e: Effect, box': seq<Msg>, n: nat)
    requires InStep(box, port, n) && Allowed(box, port, e) && Follows(box, e, box')
    requires e.Arrived? ==> n < SEQUENCE_MODULUS
    ensures InStep(box', After(port, e), Counted(n, e))
  {
    hide Leads;
    match e {
      case Arrived => assert port.counter == n;
      case Served(k, _) =>
        assert k < |box| by { AllowedInRange(box, port, e); }
        NumbersWithout(port.numbers, k);
        hide RemoveAt;
      case _ =>
    }
  }

  /** And then what the heap serves is the stable choice. */
  lemma ServesStably(box: seq<Msg>, port: Port, n: nat, k: nat)
    requires InStep(box, port, n) && Leads(box, port.numbers, k)
    ensures k == Pick(box)
  {
    var nodes := Numbered(box, port.numbers);
    OrderedServesStably(nodes, k);
    assert Payloads(nodes) == box;
  }
}
