/**
 Response histories of the gateway: turns shared along parent links and counted
 like reference-counted pointers. A handle is one strong reference from outside
 the chain: a table entry, a request's local, or the loop variable of a drop in
 progress. Each step here is one atomic update of one count.
 */
module ResponseHistory {
  import opened Outcomes

  type Id = nat

  // A message as the JSON text it is.
  type Message = string

  datatype Node = Node(parent: Option<Id>, turn: seq<Message>, count: nat)

  type Heap = map<Id, Node>

  function Children(heap: Heap, id: Id): set<Id> {
    set c | c in heap && heap[c].parent == Some(id)
  }

  // Parents exist and are older than their children.
  predicate Linked(heap: Heap) {
    forall id :: id in heap && heap[id].parent.Some? ==>
      heap[id].parent.value < id && heap[id].parent.value in heap
  }

  /** Every live node is counted exactly: its handles and its live children. */
  ghost predicate Counted(heap: Heap, handles: multiset<Id>) {
    Linked(heap)
    && (forall id :: id in handles ==> id in heap)
    && forall id :: id in heap ==>
         heap[id].count == handles[id] + |Children(heap, id)| && heap[id].count > 0
  }

  // ---------------------------------------------------------------- release

  // What one step of giving up a handle leaves: the heap, and a handle passed on.
  datatype Released = Released(heap: Heap, parent: Option<Id>)

  /** Gives up one strong reference: frees the node if it was the last one. */
  function Release(heap: Heap, id: Id): Released
    requires id in heap && heap[id].count > 0
  {
    if heap[id].count == 1 then Released(heap - {id}, heap[id].parent)
    else Released(heap[id := heap[id].(count := heap[id].count - 1)], None)
  }

  function HandlesAfter(handles: multiset<Id>, id: Id, parent: Option<Id>): multiset<Id> {
    handles - multiset{id} + (if parent.Some? then multiset{parent.value} else multiset{})
  }

  lemma ChildrenAfterFree(heap: Heap, id: Id, other: Id)
    requires id in heap
    ensures Children(heap - {id}, other) == Children(heap, other) - {id}
    ensures heap[id].parent == Some(other) ==> |Children(heap - {id}, other)| == |Children(heap, other)| - 1
    ensures heap[id].parent != Some(other) ==> Children(heap - {id}, other) == Children(heap, other)
  {
  }

  lemma FreeKeepsCounts(heap: Heap, handles: multiset<Id>, id: Id)
    requires Counted(heap, handles) && id in handles && heap[id].count == 1
    ensures Counted(heap - {id}, HandlesAfter(handles, id, heap[id].parent))
  {
    var next := heap - {id};
    var after := HandlesAfter(handles, id, heap[id].parent);
    assert Children(heap, id) == {} && handles[id] == 1;
    forall other | other in next
      ensures next[other].count == after[other] + |Children(next, other)|
    {
      ChildrenAfterFree(heap, id, other);
    }
    forall other | other in next && next[other].parent.Some?
      ensures next[other].parent.value in next
    {
      assert other !in Children(heap, id);
    }
    forall h | h in after
      ensures h in next
    {
      assert h == id ==> handles[id] == 1;
    }
  }

  lemma DecrementKeepsCounts(heap: Heap, handles: multiset<Id>, id: Id)
    requires Counted(heap, handles) && id in handles && heap[id].count > 1
    ensures Counted(Release(heap, id).heap, handles - multiset{id})
  {
    var next := Release(heap, id).heap;
    forall other | other in next
      ensures next[other].count == (handles - multiset{id})[other] + |Children(next, other)|
    {
      assert Children(next, other) == Children(heap, other);
    }
  }

  /**
   Every interleaving is covered by single steps: one release keeps the counts
   exact, with the handle of a freed node's parent passed to the releaser.
   */
  lemma ReleaseKeepsCounts(heap: Heap, handles: multiset<Id>, id: Id)
    requires Counted(heap, handles) && id in handles
    ensures var r := Release(heap, id);
            Counted(r.heap, HandlesAfter(handles, id, r.parent))
  {
    if heap[id].count == 1 {
      FreeKeepsCounts(heap, handles, id);
    } else {
      DecrementKeepsCounts(heap, handles, id);
      assert HandlesAfter(handles, id, None) == handles - multiset{id};
    }
  }

  // ----------------------------------------------------------- reachability

  /** A handle on `from` keeps `id` alive: `id` is `from` or one of its ancestors. */
  predicate Reaches(heap: Heap, from: Id, id: Id)
    requires Linked(heap)
    decreases from
  {
    from in heap
    && (from == id || (heap[from].parent.Some? && Reaches(heap, heap[from].parent.value, id)))
  }

  ghost predicate Held(heap: Heap, handles: multiset<Id>, id: Id)
    requires Linked(heap)
  {
    exists h :: h in handles && Reaches(heap, h, id)
  }

  lemma {:induction false} ReachesParent(heap: Heap, from: Id, id: Id)
    requires Linked(heap) && Reaches(heap, from, id) && id in heap && heap[id].parent.Some?
    ensures Reaches(heap, from, heap[id].parent.value)
    decreases from
  {
    if from != id {
      ReachesParent(heap, heap[from].parent.value, id);
    }
  }

  lemma {:induction false} ReachedIsLive(heap: Heap, from: Id, id: Id)
    requires Linked(heap) && Reaches(heap, from, id)
    ensures id in heap
    decreases from
  {
    if from != id {
      ReachedIsLive(heap, heap[from].parent.value, id);
    }
  }

  /** With exact counts no live node is garbage. */
  lemma {:induction false} LiveIsHeld(heap: Heap, handles: multiset<Id>, id: Id, bound: Id)
    requires Counted(heap, handles) && id in heap && forall x :: x in heap ==> x < bound
    ensures Held(heap, handles, id)
    decreases bound - id
  {
    if id in handles {
      assert Reaches(heap, id, id);
    } else {
      assert |Children(heap, id)| > 0;
      var c :| c in Children(heap, id);
      LiveIsHeld(heap, handles, c, bound);
      var h :| h in handles && Reaches(heap, h, c);
      ReachesParent(heap, h, c);
    }
  }

  // The nodes that survive keep their links and their turns.
  predicate Survives(before: Heap, after: Heap) {
    forall id :: id in after ==>
      id in before && after[id].parent == before[id].parent && after[id].turn == before[id].turn
  }

  lemma {:induction false} ReachesSurvives(before: Heap, after: Heap, from: Id, id: Id)
    requires Linked(before) && Linked(after) && Survives(before, after) && from in after
    ensures Reaches(before, from, id) <==> Reaches(after, from, id)
    decreases from
  {
    if from != id && before[from].parent.Some? {
      ReachesSurvives(before, after, before[from].parent.value, id);
    }
  }

  /**
   A drop frees exactly the nodes that no remaining handle reaches, judged in
   the heap as it was before the drop.
   */
  lemma FreesExactlyTheUnreachable(before: Heap, after: Heap, handles: multiset<Id>, bound: Id)
    requires Linked(before) && Survives(before, after) && Counted(after, handles)
    requires forall x :: x in after ==> x < bound
    ensures forall id :: id in before ==> (id in after <==> Held(before, handles, id))
  {
    forall id | id in before
      ensures id in after <==> Held(before, handles, id)
    {
      if id in after {
        LiveIsHeld(after, handles, id, bound);
        var h :| h in handles && Reaches(after, h, id);
        ReachesSurvives(before, after, h, id);
      }
      if Held(before, handles, id) {
        var h :| h in handles && Reaches(before, h, id);
        ReachesSurvives(before, after, h, id);
        ReachedIsLive(after, h, id);
      }
    }
  }

  // --------------------------------------------------------------- flatten

  /** The turns from the root down to a node. */
  function Messages(heap: Heap, id: Id): seq<Message>
    requires Linked(heap) && id in heap
    decreases id
  {
    (if heap[id].parent.Some? then Messages(heap, heap[id].parent.value) else []) + heap[id].turn
  }

  function Above(heap: Heap, parent: Option<Id>): seq<Message>
    requires Linked(heap) && (parent.Some? ==> parent.value in heap)
  {
    if parent.Some? then Messages(heap, parent.value) else []
  }

  lemma {:induction false} MessagesSurvive(before: Heap, after: Heap, id: Id)
    requires Linked(before) && Linked(after) && Survives(before, after) && id in after
    ensures Messages(after, id) == Messages(before, id)
    decreases id
  {
    if after[id].parent.Some? {
      MessagesSurvive(before, after, after[id].parent.value);
    }
  }

  // ------------------------------------------------------- append and clone

  function HandlesAppended(handles: multiset<Id>, parent: Option<Id>, id: Id): multiset<Id> {
    (if parent.Some? then handles - multiset{parent.value} else handles) + multiset{id}
  }

  lemma HandlesAppendedAre(handles: multiset<Id>, parent: Option<Id>, id: Id)
    ensures HandlesAppended(handles, parent, id) == handles - Opt(parent) + multiset{id}
  {
  }

  lemma ChildrenAfterAppend(heap: Heap, node: Node, id: Id, other: Id)
    requires id !in heap
    ensures node.parent == Some(other) ==> |Children(heap[id := node], other)| == |Children(heap, other)| + 1
    ensures node.parent != Some(other) ==> Children(heap[id := node], other) == Children(heap, other)
  {
    if node.parent == Some(other) {
      assert Children(heap[id := node], other) == Children(heap, other) + {id};
    } else {
      assert Children(heap[id := node], other) == Children(heap, other);
    }
  }

  lemma CountAfterAppend(heap: Heap, handles: multiset<Id>, node: Node, id: Id, other: Id)
    requires Counted(heap, handles) && forall x :: x in heap ==> x < id
    requires (node.parent.Some? ==> node.parent.value in handles) && node.count == 1
    requires other in heap || other == id
    ensures var next := heap[id := node];
            next[other].count == HandlesAppended(handles, node.parent, id)[other] + |Children(next, other)|
  {
    hide Children;
    ChildrenAfterAppend(heap, node, id, other);
    assert id !in handles;
    if other == id {
      NoChildren(heap, handles, id);
    }
  }

  lemma NoChildren(heap: Heap, handles: multiset<Id>, id: Id)
    requires Counted(heap, handles) && id !in heap
    ensures Children(heap, id) == {}
  {
  }

  lemma LinksAfterAppend(heap: Heap, node: Node, id: Id)
    requires Linked(heap) && id !in heap && (node.parent.Some? ==> node.parent.value in heap && node.parent.value < id)
    ensures Linked(heap[id := node])
  {
  }

  lemma HandlesAfterAppend(heap: Heap, handles: multiset<Id>, node: Node, id: Id)
    requires forall h :: h in handles ==> h in heap
    ensures forall h :: h in HandlesAppended(handles, node.parent, id) ==> h in heap[id := node]
  {
  }

  lemma AppendKeepsCounts(heap: Heap, handles: multiset<Id>, node: Node, id: Id)
    requires Counted(heap, handles) && forall x :: x in heap ==> x < id
    requires (node.parent.Some? ==> node.parent.value in handles) && node.count == 1
    ensures Counted(heap[id := node], HandlesAppended(handles, node.parent, id))
  {
    var next := heap[id := node];
    var after := HandlesAppended(handles, node.parent, id);
    forall other | other in next
      ensures next[other].count == after[other] + |Children(next, other)| && next[other].count > 0
    {
      hide Children, Linked;
      CountAfterAppend(heap, handles, node, id, other);
    }
    assert Counted(next, after) by {
      hide Children, Linked, HandlesAppended;
      CountedUse(heap, handles);
      LinksAfterAppend(heap, node, id);
      HandlesAfterAppend(heap, handles, node, id);
    }
  }

  lemma CloneKeepsCounts(heap: Heap, handles: multiset<Id>, id: Id)
    requires Counted(heap, handles) && id in heap
    ensures Counted(heap[id := heap[id].(count := heap[id].count + 1)], handles + multiset{id})
  {
    var next := heap[id := heap[id].(count := heap[id].count + 1)];
    forall other | other in next
      ensures next[other].count == (handles + multiset{id})[other] + |Children(next, other)|
    {
      assert Children(next, other) == Children(heap, other);
    }
  }

  // ------------------------------------------------------------------ table

  datatype Stored = Stored(response: Message, history: Id)

  const MAX_RESPONSES: nat := 128

  function Holders(responses: map<string, Stored>, id: Id): set<string> {
    set k | k in responses && responses[k].history == id
  }

  // The handles the table itself holds, one for each entry.
  ghost predicate Tabled(responses: map<string, Stored>, table: multiset<Id>) {
    forall id: Id :: table[id] == |Holders(responses, id)|
  }

  lemma TabledRemove(responses: map<string, Stored>, table: multiset<Id>, k: string)
    requires Tabled(responses, table) && k in responses
    ensures Tabled(responses - {k}, table - multiset{responses[k].history})
    ensures responses[k].history in table
  {
    var h := responses[k].history;
    assert k in Holders(responses, h);
    forall id: Id
      ensures (table - multiset{h})[id] == |Holders(responses - {k}, id)|
    {
      if id == h {
        assert Holders(responses - {k}, id) == Holders(responses, id) - {k};
      } else {
        assert Holders(responses - {k}, id) == Holders(responses, id);
      }
    }
  }

  lemma HoldersPut(responses: map<string, Stored>, k: string, s: Stored, id: Id)
    requires k !in responses
    ensures |Holders(responses[k := s], id)| == |Holders(responses, id)| + (if id == s.history then 1 else 0)
  {
    if id == s.history {
      assert Holders(responses[k := s], id) == Holders(responses, id) + {k};
    } else {
      assert Holders(responses[k := s], id) == Holders(responses, id);
    }
  }

  lemma TabledPut(responses: map<string, Stored>, table: multiset<Id>, k: string, s: Stored)
    requires Tabled(responses, table) && k !in responses
    ensures Tabled(responses[k := s], table + multiset{s.history})
  {
    forall id: Id
      ensures (table + multiset{s.history})[id] == |Holders(responses[k := s], id)|
    {
      hide Holders;
      HoldersPut(responses, k, s, id);
    }
  }

  // Nothing but what the whole holds.
  predicate PartOf(responses: map<string, Stored>, whole: map<string, Stored>) {
    forall k :: k in responses ==> k in whole && responses[k] == whole[k]
  }

  lemma PartOfItself(responses: map<string, Stored>)
    ensures PartOf(responses, responses)
  {
  }

  lemma PartOfRemove(responses: map<string, Stored>, whole: map<string, Stored>, k: string)
    requires PartOf(responses, whole)
    ensures PartOf(responses - {k}, whole)
  {
  }

  /** Every response in the table flattens to the same messages before and after. */
  ghost predicate Flattens(before: Heap, after: Heap, responses: map<string, Stored>) {
    Linked(before) && Linked(after)
    && forall k :: k in responses ==>
         responses[k].history in before && responses[k].history in after
         && Messages(after, responses[k].history) == Messages(before, responses[k].history)
  }

  lemma StillFlatten(before: Heap, after: Heap, handles: multiset<Id>, table: multiset<Id>,
                     responses: map<string, Stored>)
    requires Linked(before) && Survives(before, after) && Counted(after, handles)
    requires Tabled(responses, table) && table <= handles
    ensures Flattens(before, after, responses)
  {
    hide Messages, Tabled, Children;
    forall k | k in responses
      ensures responses[k].history in after && responses[k].history in before
      ensures Messages(after, responses[k].history) == Messages(before, responses[k].history)
    {
      TabledRemove(responses, table, k);
      MessagesSurvive(before, after, responses[k].history);
    }
  }

  // ---------------------------------------------------------------- gateway

  function Opt(id: Option<Id>): multiset<Id> {
    if id.Some? then multiset{id.value} else multiset{}
  }

  lemma CountedUse(heap: Heap, handles: multiset<Id>)
    requires Counted(heap, handles)
    ensures Linked(heap)
    ensures forall id :: id in handles ==> id in heap
    ensures forall id :: id in heap ==> heap[id].count > 0
  {
  }

  // What is left of the handles when a request gives up its own.
  lemma Abandoned(before: Heap, after: Heap, handles: multiset<Id>, table: multiset<Id>, flying: multiset<Id>,
                  id: Id, responses: map<string, Stored>)
    requires Linked(before) && Survives(before, after) && Counted(after, handles) && Tabled(responses, table)
    requires id in flying && handles == table + flying - multiset{id}
    ensures handles == table + (flying - multiset{id}) && Flattens(before, after, responses)
  {
    hide Linked, Survives, Counted, Tabled, Flattens;
    StillFlatten(before, after, handles, table, responses);
  }

  // Of the nodes before, exactly those are left that some handle reaches.
  ghost predicate LeavesHeld(before: Heap, after: Heap, handles: multiset<Id>) {
    Linked(before) && forall x :: x in before ==> (x in after <==> Held(before, handles, x))
  }

  lemma DropLeavesHeld(before: Heap, after: Heap, owned: multiset<Id>, handles: multiset<Id>, bound: Id)
    requires Counted(before, owned) && Survives(before, after) && Counted(after, handles)
    requires forall x :: x in after ==> x < bound
    ensures LeavesHeld(before, after, handles)
  {
    CountedIsLinked(before, owned);
    hide Linked, Survives, Counted, Held;
    FreesExactlyTheUnreachable(before, after, handles, bound);
  }

  lemma CountedIsLinked(heap: Heap, handles: multiset<Id>)
    requires Counted(heap, handles)
    ensures Linked(heap)
  {
  }

  lemma ReleaseSurvives(heap: Heap, id: Id)
    requires Linked(heap) && id in heap && heap[id].count > 0
    ensures var r := Release(heap, id);
            Survives(heap, r.heap) && (r.parent.Some? ==> r.parent.value < id)
  {
  }

  lemma SurvivesItself(heap: Heap)
    ensures Survives(heap, heap)
  {
  }

  lemma ReleasePasses(heap: Heap, id: Id)
    requires id in heap && heap[id].count > 0
    ensures heap[id].count != 1 ==> Release(heap, id).parent.None?
  {
  }

  lemma SurvivesTransitive(a: Heap, b: Heap, c: Heap)
    requires Survives(a, b) && Survives(b, c)
    ensures Survives(a, c)
  {
  }

  lemma SurvivesBelow(a: Heap, b: Heap, bound: Id)
    requires Survives(a, b) && forall x :: x in a ==> x < bound
    ensures forall x :: x in b ==> x < bound
  {
  }

  lemma PassOn(rest: multiset<Id>, id: Id, parent: Option<Id>)
    ensures HandlesAfter(rest + multiset{id}, id, parent) == rest + Opt(parent)
  {
  }

  class History {
    var nodes: Heap
    var nextId: Id
    ghost var handles: multiset<Id>

    constructor ()
      ensures nodes == map[] && handles == multiset{} && Valid()
    {
      nodes := map[];
      nextId := 0;
      handles := multiset{};
    }

    ghost predicate Valid()
      reads this
    {
      Counted(nodes, handles) && forall id :: id in nodes ==> id < nextId
    }

    /** Appends a turn below an optional parent, whose handle moves into the node. */
    method Append(parent: Option<Id>, turn: seq<Message>, assistant: Message) returns (id: Id)
      requires Valid() && (parent.Some? ==> parent.value in handles)
      modifies this
      ensures Valid() && id !in old(nodes)
      ensures handles == old(handles) - Opt(parent) + multiset{id}
      ensures nodes == old(nodes)[id := Node(parent, turn + [assistant], 1)]
    {
      hide Counted, Linked, HandlesAppended;
      assert nextId !in nodes;
      AppendKeepsCounts(nodes, handles, Node(parent, turn + [assistant], 1), nextId);
      id := nextId;
      nodes := nodes[id := Node(parent, turn + [assistant], 1)];
      HandlesAppendedAre(handles, parent, id);
      handles := handles - Opt(parent) + multiset{id};
      nextId := nextId + 1;
    }

    /** Takes one more handle on a live node. */
    method Clone(id: Id)
      requires Valid() && id in nodes
      modifies this
      ensures Valid() && handles == old(handles) + multiset{id}
      ensures nodes == old(nodes)[id := old(nodes)[id].(count := old(nodes)[id].count + 1)]
    {
      CloneKeepsCounts(nodes, handles, id);
      nodes := nodes[id := nodes[id].(count := nodes[id].count + 1)];
      handles := handles + multiset{id};
    }

    /** One strong count goes down; a freed node hands over its parent link. */
    method Give(id: Id, ghost rest: multiset<Id>) returns (parent: Option<Id>)
      requires Valid() && handles == rest + multiset{id}
      modifies this
      ensures Valid() && Survives(old(nodes), nodes)
      ensures handles == rest + Opt(parent) && (parent.Some? ==> parent.value < id)
      ensures id in old(nodes) && (old(nodes)[id].count != 1 ==> parent.None?)
    {
      hide Counted, Linked, Survives, Release;
      CountedUse(nodes, handles);
      ReleaseKeepsCounts(nodes, handles, id);
      ReleaseSurvives(nodes, id);
      var released := Release(nodes, id);
      PassOn(rest, id, released.parent);
      SurvivesBelow(nodes, released.heap, nextId);
      ReleasePasses(nodes, id);
      nodes := released.heap;
      handles := rest + Opt(released.parent);
      parent := released.parent;
    }

    /**
     The hand-written drop of a node that was just taken out of its cell: it
     detaches unique ancestors one by one. Each detached node is dropped with its
     parent link already empty, so the recursion is two calls deep at most.
     */
    method DropNode(link: Option<Id>) returns (depth: nat)
      requires Valid() && (link.Some? ==> link.value in handles)
      modifies this
      ensures Valid() && handles == old(handles) - Opt(link)
      ensures Survives(old(nodes), nodes)
      ensures link.Some? ==> link.value in old(nodes)
      ensures depth == if link.Some? && old(nodes)[link.value].count == 1 then 2 else 1
      decreases link.Some?
    {
      hide Counted, Linked, Survives, Release;
      depth := 1;
      var parent := link;
      ghost var rest := handles - Opt(link);
      ghost var unique := false;
      SurvivesItself(nodes);
      if link.Some? {
        CountedUse(nodes, handles);
        unique := nodes[link.value].count == 1;
      }
      ghost var begun := false;
      while parent.Some?
        invariant Valid() && handles == rest + Opt(parent)
        invariant Survives(old(nodes), nodes)
        invariant link.None? ==> parent.None?
        invariant !begun ==> depth == 1 && parent == link && nodes == old(nodes)
        invariant begun ==> depth == (if unique then 2 else 1) && (!unique ==> parent.None?)
        decreases if parent.Some? then parent.value + 1 else 0
      {
        label Turn:
        var id := parent.value;
        CountedUse(nodes, handles);
        var last := nodes[id].count == 1;
        parent := Give(id, rest);
        begun := true;
        SurvivesTransitive(old(nodes), old@Turn(nodes), nodes);
        if last {
          label Inner:
          var inner := DropNode(None);
          SurvivesTransitive(old(nodes), old@Inner(nodes), nodes);
          depth := if depth < 1 + inner then 1 + inner else depth;
        }
      }
    }

    /**
     Gives up a handle. Afterwards exactly the nodes that some remaining handle
     reaches are live, with their links and turns.
     */
    method Drop(id: Id) returns (depth: nat)
      requires Valid() && id in handles
      modifies this
      ensures Valid() && handles == old(handles) - multiset{id} && depth <= 2
      ensures id in old(nodes) && (depth == 0 <==> old(nodes)[id].count != 1)
      ensures Survives(old(nodes), nodes)
      ensures LeavesHeld(old(nodes), nodes, handles)
    {
      hide Counted, Linked, Survives, Release, Held, LeavesHeld;
      ghost var rest := handles - multiset{id};
      assert handles == rest + multiset{id};
      CountedUse(nodes, handles);
      var last := nodes[id].count == 1;
      var parent := Give(id, rest);
      depth := 0;
      if last {
        label Owned:
        depth := DropNode(parent);
        SurvivesTransitive(old(nodes), old@Owned(nodes), nodes);
      }
      assert handles == rest;
      DropLeavesHeld(old(nodes), nodes, old(handles), handles, nextId);
    }

    /** Collects the chain from a node up, then replays the turns from the root down. */
    method Flatten(id: Id) returns (messages: seq<Message>)
      requires Valid() && id in nodes
      ensures messages == Messages(nodes, id)
    {
      hide Counted, Linked, Messages, Turns, Above;
      CountedUse(nodes, handles);
      var chain: seq<Id> := [];
      var current := Some(id);
      ghost var tail: seq<Message> := [];
      NothingClimbed(nodes, id);
      while current.Some?
        invariant current.Some? ==> current.value in nodes
        invariant Live(nodes, chain) && Turns(nodes, chain) == tail
        invariant Messages(nodes, id) == Above(nodes, current) + tail
        decreases if current.Some? then current.value + 1 else 0
      {
        var node := nodes[current.value];
        TurnsSnoc(nodes, chain, current.value);
        Climb(nodes, current.value, tail);
        tail := node.turn + tail;
        chain := chain + [current.value];
        current := node.parent;
      }
      AboveNothing(nodes, tail);
      messages := [];
      var k := |chain|;
      assert chain[..k] == chain && [] + Turns(nodes, chain) == Turns(nodes, chain);
      while k > 0
        invariant 0 <= k <= |chain|
        invariant Turns(nodes, chain) == messages + Turns(nodes, chain[..k])
      {
        k := k - 1;
        ReplayOne(nodes, chain, k, messages);
        messages := messages + nodes[chain[k]].turn;
      }
      assert chain[..0] == [] && messages + [] == messages;
    }
  }

  predicate Live(heap: Heap, chain: seq<Id>) {
    forall i :: 0 <= i < |chain| ==> chain[i] in heap
  }

  lemma {:induction false} NothingClimbed(heap: Heap, id: Id)
    requires Linked(heap) && id in heap
    ensures Turns(heap, []) == [] && Messages(heap, id) == Above(heap, Some(id)) + []
  {
  }

  // One step up: the node's turn moves from what is above to what is below.
  lemma Climb(heap: Heap, id: Id, tail: seq<Message>)
    requires Linked(heap) && id in heap
    ensures var node := heap[id];
            (node.parent.Some? ==> node.parent.value in heap && node.parent.value < id)
            && Above(heap, Some(id)) + tail == Above(heap, node.parent) + (node.turn + tail)
  {
  }

  lemma AboveNothing(heap: Heap, tail: seq<Message>)
    requires Linked(heap)
    ensures Above(heap, None) + tail == tail
  {
  }

  lemma {:induction false} ReplayOne(heap: Heap, chain: seq<Id>, k: nat, messages: seq<Message>)
    requires Live(heap, chain) && k < |chain|
    ensures messages + Turns(heap, chain[..k + 1])
         == (messages + heap[chain[k]].turn) + Turns(heap, chain[..k])
  {
    assert chain[..k + 1] == chain[..k] + [chain[k]];
    TurnsSnoc(heap, chain[..k], chain[k]);
  }

  // The turns of a chain listed from a node up, replayed from the root down.
  function Turns(heap: Heap, chain: seq<Id>): seq<Message>
    requires Live(heap, chain)
  {
    if chain == [] then []
    else heap[chain[|chain| - 1]].turn + Turns(heap, chain[..|chain| - 1])
  }

  lemma {:induction false} TurnsSnoc(heap: Heap, chain: seq<Id>, id: Id)
    requires id in heap && Live(heap, chain)
    ensures Turns(heap, chain + [id]) == heap[id].turn + Turns(heap, chain)
  {
    assert (chain + [id])[..|chain|] == chain;
  }

  lemma LentFor(table: multiset<Id>, flying: multiset<Id>, parent: Option<Id>, id: Id)
    requires parent.Some? ==> parent.value in flying
    ensures table + flying - Opt(parent) + multiset{id} == table + (flying - Opt(parent) + multiset{id})
    ensures parent.Some? ==> parent.value in table + flying
  {
  }

  /** A new turn is read after everything above it, and changes nothing that was there. */
  lemma {:induction false} MessagesAppended(before: Heap, after: Heap, parent: Option<Id>, turn: seq<Message>, id: Id)
    requires Linked(before) && Linked(after) && id !in before && after == before[id := Node(parent, turn, 1)]
    requires parent.Some? ==> parent.value in before
    ensures Messages(after, id) == Above(before, parent) + turn
  {
    if parent.Some? {
      MessagesSurvive(after, before, parent.value);
    }
  }

  lemma AppendSurvives(heap: Heap, node: Node, id: Id)
    requires id !in heap
    ensures Survives(heap[id := node], heap)
  {
  }

  lemma StillFlattenAppended(before: Heap, after: Heap, handles: multiset<Id>, table: multiset<Id>,
                             responses: map<string, Stored>)
    requires Counted(before, handles) && Linked(after) && Survives(after, before)
    requires Tabled(responses, table) && table <= handles
    ensures Flattens(before, after, responses)
  {
    hide Messages, Tabled, Children;
    forall k | k in responses
      ensures responses[k].history in after && responses[k].history in before
      ensures Messages(after, responses[k].history) == Messages(before, responses[k].history)
    {
      TabledRemove(responses, table, k);
      MessagesSurvive(after, before, responses[k].history);
    }
  }

  lemma Evicted(table: multiset<Id>, flying: multiset<Id>, id: Id)
    requires id in table
    ensures id in table + flying
    ensures table + flying - multiset{id} == (table - multiset{id}) + flying
  {
  }

  lemma Lent(table: multiset<Id>, flying: multiset<Id>, id: Id)
    ensures table + flying + multiset{id} == table + (flying + multiset{id})
  {
  }

  lemma Stowed(table: multiset<Id>, flying: multiset<Id>, id: Id)
    requires id in flying
    ensures table + flying == (table + multiset{id}) + (flying - multiset{id})
  {
  }

  lemma Replaced(responses: map<string, Stored>, k: string, s: Stored)
    ensures (responses - {k})[k := s] == responses[k := s]
  {
  }

  lemma OneFewer(responses: map<string, Stored>, k: string)
    requires k in responses
    ensures |responses - {k}| == |responses| - 1
  {
    assert (responses - {k}).Keys == responses.Keys - {k};
  }

  class Responses {
    const history: History
    var responses: map<string, Stored>
    // The handles held by the table, and those held by requests in flight.
    ghost var table: multiset<Id>
    ghost var flying: multiset<Id>

    constructor ()
      ensures Valid() && fresh(history) && responses == map[] && flying == multiset{}
    {
      history := new History();
      responses := map[];
      table := multiset{};
      flying := multiset{};
    }

    ghost predicate Sound()
      reads this, history
    {
      history.Valid() && Tabled(responses, table) && history.handles == table + flying
    }

    ghost predicate Valid()
      reads this, history
    {
      Sound() && |responses| <= 128
    }

    /** Looks up an earlier response and keeps its history alive for this request. */
    method Resume(previous: string) returns (r: Option<Id>)
      requires Valid()
      modifies this`flying, history
      ensures Valid() && (r.Some? <==> previous in responses)
      ensures r.Some? ==> r.value == responses[previous].history
      ensures flying == old(flying) + Opt(r)
      ensures Survives(history.nodes, old(history.nodes)) && Survives(old(history.nodes), history.nodes)
    {
      hide Tabled, Counted, Holders;
      if previous !in responses {
        SurvivesItself(history.nodes);
        return None;
      }
      var id := responses[previous].history;
      TabledRemove(responses, table, previous);
      CountedUse(history.nodes, history.handles);
      history.Clone(id);
      Lent(table, flying, id);
      flying := flying + multiset{id};
      r := Some(id);
    }

    /** A request gives up the handle it holds. */
    method Abandon(id: Id)
      requires Valid() && id in flying
      modifies this`flying, history
      ensures Valid() && flying == old(flying) - multiset{id}
      ensures Flattens(old(history.nodes), history.nodes, responses)
    {
      hide Tabled, Survives, Held, Counted, Flattens, Linked, Messages, Holders, LeavesHeld;
      CountedIsLinked(history.nodes, history.handles);
      var depth := history.Drop(id);
      Abandoned(old(history.nodes), history.nodes, history.handles, table, flying, id, responses);
      flying := flying - multiset{id};
    }

    /** A request answers: its turn, below the history it resumed, becomes a handle in flight. */
    method Answer(parent: Option<Id>, turn: seq<Message>, assistant: Message) returns (id: Id)
      requires Valid() && (parent.Some? ==> parent.value in flying)
      modifies this`flying, history
      ensures Valid() && flying == old(flying) - Opt(parent) + multiset{id}
      ensures Linked(history.nodes) && id in history.nodes
      ensures Linked(old(history.nodes)) && (parent.Some? ==> parent.value in old(history.nodes))
      ensures Messages(history.nodes, id)
           == Above(old(history.nodes), parent) + (turn + [assistant])
      ensures Flattens(old(history.nodes), history.nodes, responses)
    {
      hide Tabled, Held, Counted, Flattens, Linked, Messages, Survives, Above;
      CountedUse(history.nodes, history.handles);
      id := history.Append(parent, turn, assistant);
      CountedUse(history.nodes, history.handles);
      LentFor(table, flying, parent, id);
      flying := flying - Opt(parent) + multiset{id};
      MessagesAppended(old(history.nodes), history.nodes, parent, turn + [assistant], id);
      AppendSurvives(old(history.nodes), Node(parent, turn + [assistant], 1), id);
      StillFlattenAppended(old(history.nodes), history.nodes, old(history.handles), table, responses);
    }

    /** Evicts one entry and drops its handle. */
    method Evict(key: string)
      requires Sound() && key in responses
      modifies this, history
      ensures Sound() && flying == old(flying)
      ensures responses == old(responses) - {key} && |responses| == old(|responses|) - 1
      ensures Survives(old(history.nodes), history.nodes)
    {
      hide Tabled, Survives, Held, Counted;
      var id := responses[key].history;
      TabledRemove(responses, table, key);
      Evicted(table, flying, id);
      OneFewer(responses, key);
      responses := responses - {key};
      table := table - multiset{id};
      var depth := history.Drop(id);
    }

    /** Puts an entry in, dropping the handle of one it replaces. */
    method Insert(id: string, response: Message, historyId: Id)
      requires Sound() && historyId in flying
      modifies this, history
      ensures Sound() && flying == old(flying) - multiset{historyId}
      ensures Survives(old(history.nodes), history.nodes)
      ensures responses == old(responses)[id := Stored(response, historyId)]
    {
      hide Tabled, Survives, Held, Counted, Holders, Linked, Children;
      SurvivesItself(history.nodes);
      Replaced(responses, id, Stored(response, historyId));
      if id in responses {
        Evict(id);
      }
      TabledPut(responses, table, id, Stored(response, historyId));
      Stowed(table, flying, historyId);
      responses := responses[id := Stored(response, historyId)];
      table := table + multiset{historyId};
      flying := flying - multiset{historyId};
    }

    /**
     Remembers a response. The table never holds more than 128 and evicts no more
     than it must; every response still in it keeps its value and its messages.
     */
    method Remember(id: string, response: Message, historyId: Id)
      requires Valid() && historyId in flying
      modifies this, history
      ensures Valid() && flying == old(flying) - multiset{historyId}
      ensures var whole := old(responses)[id := Stored(response, historyId)];
              PartOf(responses, whole)
              && (if |whole| <= 128 then responses == whole else |responses| == 128)
      ensures Flattens(old(history.nodes), history.nodes, responses)
    {
      hide Tabled, Survives, Held, Counted, PartOf, Flattens, Holders;
      Insert(id, response, historyId);
      ghost var whole := responses;
      PartOfItself(whole);
      while |responses| > MAX_RESPONSES
        invariant Sound() && flying == old(flying) - multiset{historyId}
        invariant Survives(old(history.nodes), history.nodes)
        invariant PartOf(responses, whole)
        invariant responses == whole || (|whole| > MAX_RESPONSES && |responses| >= MAX_RESPONSES)
        decreases |responses|
      {
        label Turn:
        var key :| key in responses;
        PartOfRemove(responses, whole, key);
        Evict(key);
        SurvivesTransitive(old(history.nodes), old@Turn(history.nodes), history.nodes);
      }
      CountedUse(old(history.nodes), old(history.handles));
      StillFlatten(old(history.nodes), history.nodes, history.handles, table, responses);
    }
  }
}
