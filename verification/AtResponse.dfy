/** The heap-allocated AT response: intermediate lines are pushed on the front of a singly linked
    list and flipped in place before the command issuer sees them. */
module AtResponse {
  import opened Wrappers

  function Reverse<T>(s: seq<T>): (r: seq<T>)
  {
    seq(|s|, k requires 0 <= k < |s| => s[|s| - 1 - k])
  }

  function Held<T>(o: Option<T>): (s: seq<T>) { if o.Some? then [o.value] else [] }

  class ATLine {
    var next: ATLine?
    const line: string

    constructor (line: string, next: ATLine?)
      ensures this.line == line && this.next == next
    {
      this.line := line;
      this.next := next;
    }
  }

  /** `nodes` is the list hanging off `head`, front to back. */
  ghost predicate Chain(head: ATLine?, nodes: seq<ATLine>)
    reads nodes
  {
    && (nodes == [] <==> head == null)
    && (nodes != [] ==> head == nodes[0] && nodes[|nodes| - 1].next == null)
    && (forall k {:trigger nodes[k].next} :: 0 <= k < |nodes| - 1 ==> nodes[k].next == nodes[k + 1])
    && (forall j, k :: 0 <= j < k < |nodes| ==> nodes[j] != nodes[k])
  }

  ghost function Texts(nodes: seq<ATLine>): (lines: seq<string>)
  {
    seq(|nodes|, k requires 0 <= k < |nodes| => nodes[k].line)
  }

  class ATResponse {
    const id: nat
    var success: int
    var finalResponse: Option<string>
    var intermediates: ATLine?
    ghost var nodes: seq<ATLine>

    ghost predicate Valid()
      reads this, nodes
    {
      Chain(intermediates, nodes)
    }

    /** The intermediates in list order. */
    ghost function Lines(): (lines: seq<string>)
      reads this
    {
      Texts(nodes)
    }

    constructor (id: nat)
      ensures Valid() && nodes == [] && this.id == id && success == 0 && finalResponse == None
    {
      this.id := id;
      success, finalResponse, intermediates, nodes := 0, None, null, [];
    }

    method AddIntermediate(line: string)
      requires Valid()
      modifies this`intermediates, this`nodes
      ensures Valid()
      ensures exists n: ATLine :: fresh(n) && nodes == [n] + old(nodes)
      ensures Lines() == [line] + old(Lines())
    {
      var n := new ATLine(line, intermediates);
      intermediates := n;
      nodes := [n] + nodes;
    }

    /** In-place reversal: the very same nodes, relinked back to front. */
    method ReverseIntermediates()
      requires Valid()
      modifies this`intermediates, this`nodes, nodes
      ensures Valid()
      ensures nodes == Reverse(old(nodes))
      ensures Lines() == Reverse(old(Lines()))
    {
      ghost var before := nodes;
      ghost var n := |before|;
      ghost var k := 0;
      var pcur := intermediates;
      intermediates := null;
      while pcur != null
        invariant 0 <= k <= n
        invariant pcur == if k < n then before[k] else null
        invariant intermediates == if k > 0 then before[k - 1] else null
        invariant forall j {:trigger before[j].next} :: k <= j < n ==> before[j].next == if j + 1 < n then before[j + 1] else null
        invariant forall j {:trigger before[j].next} :: 0 <= j < k ==> before[j].next == if j > 0 then before[j - 1] else null
        decreases n - k
      {
        var pnext := pcur.next;
        pcur.next := intermediates;
        intermediates := pcur;
        pcur := pnext;
        k := k + 1;
      }
      nodes := Reverse(before);
      Relinked(before);
    }

    /** Nodes that all point back to the one before them are a chain the other way round. */
    lemma Relinked(before: seq<ATLine>)
      requires forall j, k :: 0 <= j < k < |before| ==> before[j] != before[k]
      requires forall j {:trigger before[j].next} :: 0 <= j < |before| ==> before[j].next == if j > 0 then before[j - 1] else null
      ensures Chain(if before == [] then null else before[|before| - 1], Reverse(before))
      ensures Texts(Reverse(before)) == Reverse(Texts(before))
    {
      var r, n := Reverse(before), |before|;
      forall j | 0 <= j < n - 1
        ensures r[j].next == r[j + 1]
      {
        assert r[j] == before[n - 1 - j];
      }
    }

    /** at_response_free: walks the list once. `released` and `texts` are the list nodes and the strings
        handed back to the allocator: every node and every text of the response, each exactly once. */
    method Free() returns (released: seq<ATLine>, texts: seq<string>)
      requires Valid()
      ensures released == nodes && texts == Lines() + Held(finalResponse)
    {
      released, texts := [], [];
      var line := intermediates;
      while line != null
        invariant |released| <= |nodes|
        invariant released == nodes[..|released|] && texts == Texts(released)
        invariant Chain(line, nodes[|released|..])
        decreases |nodes| - |released|
      {
        var toFree := line;
        line := line.next;
        texts := texts + [toFree.line];
        released := released + [toFree];
      }
      if finalResponse.Some? {
        texts := texts + [finalResponse.value];
      }
    }
  }
}
