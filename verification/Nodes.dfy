/** The list of extension nodes, each answering for a range of pins. */
module Nodes {

  import opened Wrappers

  const MIN_PIN_BASE: int := 64

  datatype Range = Range(pinBase: int, pinMax: int)

  /** A request for `numPins` pins from `pinBase` on; none or fewer make a range without pins. */
  function Requested(pinBase: int, numPins: int): Range {
    Range(pinBase, pinBase + numPins - 1)
  }

  predicate Covers(r: Range, pin: int) {
    r.pinBase <= pin <= r.pinMax
  }

  ghost predicate Apart(r: Range, s: Range) {
    forall pin :: !(Covers(r, pin) && Covers(s, pin))
  }

  /** The first range on the list to cover the pin. */
  function Found(list: seq<Range>, pin: int): Option<Range> {
    if list == [] then None
    else if Covers(list[0], pin) then Some(list[0])
    else Found(list[1..], pin)
  }

  /** Nothing is found exactly when no range covers the pin; what is found covers it. */
  lemma {:induction false} FoundCovers(list: seq<Range>, pin: int)
    ensures Found(list, pin).None? <==> forall r <- list :: !(r.pinBase <= pin <= r.pinMax)
    ensures Found(list, pin).Some? ==>
      var r := Found(list, pin).value; r in list && r.pinBase <= pin <= r.pinMax
  {
    if list != [] {
      assert list == [list[0]] + list[1..];
      FoundCovers(list[1..], pin);
    }
  }

  /** The list after a request; None where the program exits. */
  ghost function Registered(list: seq<Range>, r: Range): Option<seq<Range>> {
    if r.pinBase < MIN_PIN_BASE || exists pin :: Covers(r, pin) && Found(list, pin).Some? then None
    else Some([r] + list)
  }

  /** A request goes through exactly when its pins start at 64 and are free; then they, and no others, are its own. */
  lemma RegisteredInNumbers(list: seq<Range>, pinBase: int, numPins: int, pin: int)
    ensures var after := Registered(list, Requested(pinBase, numPins));
      (after.Some? <==> pinBase >= 64 && forall p | pinBase <= p < pinBase + numPins :: Found(list, p).None?) &&
      (after.Some? ==> Found(after.value, pin) == if pinBase <= pin < pinBase + numPins
                       then Some(Range(pinBase, pinBase + numPins - 1)) else Found(list, pin))
  {
    var request := Requested(pinBase, numPins);
    if p :| pinBase <= p < pinBase + numPins && Found(list, p).Some? {
      assert Covers(request, p);
    }
    assert ([request] + list)[1..] == list;
    var after := Registered(list, request);
    assert after.Some? ==> forall p | pinBase <= p < pinBase + numPins :: Found(list, p).None?;
    assert after.None? && pinBase >= 64 ==> exists p | pinBase <= p < pinBase + numPins :: Found(list, p).Some?;
  }

  ghost function RegisteredAll(requests: seq<Range>): Option<seq<Range>> {
    if requests == [] then Some([])
    else
      var before := RegisteredAll(requests[..|requests| - 1]);
      if before.None? then None else Registered(before.value, requests[|requests| - 1])
  }

  /** Requests that do not get in each other's way, whatever their order. */
  ghost predicate Compatible(requests: multiset<Range>) {
    && (forall r <- requests :: r.pinBase >= MIN_PIN_BASE)
    && (forall r, s :: r in requests && s in requests && r != s ==> Apart(r, s))
    && (forall r <- requests :: requests[r] > 1 ==> Apart(r, r))
  }

  lemma CompatibleWithOneMore(requests: multiset<Range>, x: Range)
    ensures Compatible(requests + multiset{x}) <==>
      Compatible(requests) && x.pinBase >= MIN_PIN_BASE && forall r <- requests :: Apart(r, x)
  {
    var more := requests + multiset{x};
    assert x in more && forall r <- requests :: r in more;
    if Compatible(more) {
      forall r <- requests ensures Apart(r, x) {
        assert r == x ==> more[r] > 1;
      }
    }
  }

  lemma RegisteredIffApart(list: seq<Range>, r: Range)
    ensures Registered(list, r).Some? <==> r.pinBase >= MIN_PIN_BASE && forall s <- list :: Apart(s, r)
  {
    forall pin ensures Found(list, pin).Some? <==> exists s <- list :: Covers(s, pin) {
      FoundCovers(list, pin);
    }
  }

  /** A run of requests goes through exactly when they are compatible, and keeps them all. */
  lemma {:induction false} AllRegisteredIffCompatible(requests: seq<Range>)
    ensures RegisteredAll(requests).Some? <==> Compatible(multiset(requests))
    ensures RegisteredAll(requests).Some? ==> multiset(RegisteredAll(requests).value) == multiset(requests)
  {
    if requests != [] {
      var before, last := requests[..|requests| - 1], requests[|requests| - 1];
      assert requests == before + [last];
      AllRegisteredIffCompatible(before);
      CompatibleWithOneMore(multiset(before), last);
      if RegisteredAll(before).Some? {
        var list := RegisteredAll(before).value;
        RegisteredIffApart(list, last);
        assert forall r :: r in list <==> r in multiset(list);
      }
    }
  }

  /** On every list a run can build, at most one range covers a pin. */
  lemma FoundIsUnique(requests: seq<Range>, pin: int, r: Range)
    requires RegisteredAll(requests).Some?
    requires r in requests && Covers(r, pin)
    ensures Found(RegisteredAll(requests).value, pin) == Some(r)
  {
    var list := RegisteredAll(requests).value;
    AllRegisteredIffCompatible(requests);
    FoundCovers(list, pin);
    ghost var all := multiset(requests);
    assert r in all && all == multiset(list);
    assert r in list;
    var found := Found(list, pin).value;
    assert found in multiset(list);
    assert found != r ==> Apart(found, r);
  }

  /** The order of the requests decides neither whether they go through nor what a pin finds. */
  lemma OrderDoesNotMatter(a: seq<Range>, b: seq<Range>, pin: int)
    requires multiset(a) == multiset(b)
    ensures RegisteredAll(a).Some? <==> RegisteredAll(b).Some?
    ensures RegisteredAll(a).Some? ==>
      Found(RegisteredAll(a).value, pin) == Found(RegisteredAll(b).value, pin)
  {
    AllRegisteredIffCompatible(a);
    AllRegisteredIffCompatible(b);
    if RegisteredAll(a).Some? {
      var listA, listB := RegisteredAll(a).value, RegisteredAll(b).value;
      FoundCovers(listA, pin);
      FoundCovers(listB, pin);
      assert forall r :: r in multiset(a) <==> r in multiset(b);
      if Found(listA, pin).Some? {
        assert Found(listA, pin).value in multiset(listA);
        FoundIsUnique(b, pin, Found(listA, pin).value);
      } else {
        forall r <- listB ensures !Covers(r, pin) {
          assert r in multiset(listB);
        }
      }
    }
  }

  class Node {
    const range: Range
    const next: Node?

    constructor (range: Range, next: Node?)
      ensures this.range == range && this.next == next
    {
      this.range, this.next := range, next;
    }
  }

  /** The nodes reached from the first one along the links. */
  ghost predicate Linked(first: Node?, nodes: seq<Node>) {
    if nodes == [] then first == null else first == nodes[0] && Linked(nodes[0].next, nodes[1..])
  }

  ghost function RangesOf(nodes: seq<Node>): seq<Range> {
    if nodes == [] then [] else [nodes[0].range] + RangesOf(nodes[1..])
  }

  class NodeList {
    var first: Node?
    ghost var nodes: seq<Node>

    ghost predicate Valid()
      reads this
    {
      Linked(first, nodes)
    }

    ghost function Ranges(): seq<Range>
      reads this
    {
      RangesOf(nodes)
    }

    constructor ()
      ensures Valid() && Ranges() == []
    {
      first, nodes := null, [];
    }

    method FindNode(pin: int) returns (node: Node?)
      requires Valid()
      ensures match Found(Ranges(), pin)
        case None => node == null
        case Some(range) => node != null && node in nodes && node.range == range
    {
      node := first;
      ghost var rest := nodes;
      while node != null
        invariant Linked(node, rest) && forall n <- rest :: n in nodes
        invariant Found(Ranges(), pin) == Found(RangesOf(rest), pin)
        decreases |rest|
      {
        if node.range.pinBase <= pin && pin <= node.range.pinMax {
          return;
        } else {
          node, rest := node.next, rest[1..];
        }
      }
    }

    /** Null where the program exits: a pin base below 64, or a pin that is taken. */
    method NewNode(pinBase: int, numPins: int) returns (node: Node?)
      requires Valid()
      modifies this
      ensures Valid()
      ensures match Registered(old(Ranges()), Requested(pinBase, numPins))
        case None => node == null && nodes == old(nodes)
        case Some(list) => node != null && nodes == [node] + old(nodes) && Ranges() == list
      ensures node == null <==>
        pinBase < 64 || exists pin | pinBase <= pin < pinBase + numPins :: Found(old(Ranges()), pin).Some?
      ensures node != null ==> node.range == Range(pinBase, pinBase + numPins - 1)
    {
      if pinBase < MIN_PIN_BASE {
        return null;
      }
      ghost var request, list := Requested(pinBase, numPins), Ranges();
      RegisteredInNumbers(list, pinBase, numPins, pinBase);
      for pin := pinBase to if numPins < 0 then pinBase else pinBase + numPins
        modifies {}
        invariant forall p :: pinBase <= p < pin ==> Found(list, p).None?
      {
        var taken := FindNode(pin);
        if taken != null {
          assert Covers(request, pin);
          return null;
        }
      }
      node := new Node(Range(pinBase, pinBase + numPins - 1), first);
      first, nodes := node, [node] + nodes;
    }
  }
}
