/** The depth-first walk over the Cursor blob graph: a blob is visited once, its text becomes a message,
    and the blobs it references are walked in order. The graph may be cyclic and may dangle. */
module BlobWalk {
  import opened ProtobufScan

  type BlobId = string
  type Store = map<BlobId, Bytes>

  datatype Role = RoleUser | RoleAssistant
  datatype ThreadMessage = ThreadMessage(role: Role, text: Bytes)

  const NEWLINE: Bytes := [10]

  function Join(parts: seq<Bytes>): Bytes {
    if parts == [] then [] else if |parts| == 1 then parts[0] else parts[0] + NEWLINE + Join(parts[1..])
  }

  // ---- The graph ----

  /** A stored blob in which the scan comes to a field with a length prefix of 2^63 or more. */
  ghost predicate Bad(store: Store, id: BlobId) {
    id in store && HasHugePrefix(store[id])
  }

  function TextsAt(store: Store, id: BlobId): seq<Bytes> {
    if id in store && Scan(store[id]).Scanned? then Scan(store[id]).texts else []
  }

  /** A dangling reference has no children, and neither has a blob whose scan panics. */
  function Children(store: Store, id: BlobId): seq<BlobId> {
    if id in store && Scan(store[id]).Scanned? then Scan(store[id]).refs else []
  }

  ghost predicate IsPath(store: Store, path: seq<BlobId>) {
    && path != []
    && forall i :: 0 <= i < |path| - 1 ==> path[i + 1] in Children(store, path[i])
  }

  /** There is a chain of references from `root` to `id`. */
  ghost predicate Reachable(store: Store, root: BlobId, id: BlobId) {
    exists path: seq<BlobId> :: IsPath(store, path) && path[0] == root && path[|path| - 1] == id
  }

  // ---- The reference order ----

  /** Depth-first pre-order by a work list: take the first id, skip it if it was seen, otherwise
      emit it and put its children in front of the rest. */
  function PreOrder(store: Store, work: seq<BlobId>, seen: set<BlobId>): seq<BlobId>
    decreases store.Keys - seen, |work|
  {
    if work == [] then []
    else if work[0] in seen then PreOrder(store, work[1..], seen)
    else if work[0] !in store then [work[0]] + PreOrder(store, work[1..], seen + {work[0]})
    else
      assert work[0] in store.Keys - seen;
      [work[0]] + PreOrder(store, Children(store, work[0]) + work[1..], seen + {work[0]})
  }

  function Elements(ids: seq<BlobId>): set<BlobId> {
    set id | id in ids
  }

  /** The message of one blob: none without text; only `root` carries the given role. */
  function MessageOf(store: Store, id: BlobId, root: BlobId, role: Role): seq<ThreadMessage> {
    var texts := TextsAt(store, id);
    if texts == [] then [] else [ThreadMessage(if id == root then role else RoleAssistant, Join(texts))]
  }

  function MessagesOf(store: Store, order: seq<BlobId>, root: BlobId, role: Role): seq<ThreadMessage> {
    if order == [] then [] else MessageOf(store, order[0], root, role) + MessagesOf(store, order[1..], root, role)
  }

  lemma {:induction false} MessagesAppend(store: Store, a: seq<BlobId>, b: seq<BlobId>, root: BlobId, role: Role)
    ensures MessagesOf(store, a + b, root, role) == MessagesOf(store, a, root, role) + MessagesOf(store, b, root, role)
  {
    hide MessageOf;
    if a == [] {
      assert a + b == b;
    } else {
      assert (a + b)[1..] == a[1..] + b;
      MessagesAppend(store, a[1..], b, root, role);
    }
  }

  /** The role argument matters at the root only. */
  lemma {:induction false} MessagesElsewhere(store: Store, order: seq<BlobId>, root: BlobId, other: BlobId, role: Role)
    requires root !in order
    ensures MessagesOf(store, order, root, role) == MessagesOf(store, order, other, RoleAssistant)
  {
    hide TextsAt;
    if order != [] {
      MessagesElsewhere(store, order[1..], root, other, role);
    }
  }

  /** A work list can be processed in two parts, the second starting from what the first has seen. */
  lemma {:induction false} PreOrderSplit(store: Store, a: seq<BlobId>, b: seq<BlobId>, seen: set<BlobId>)
    ensures var first := PreOrder(store, a, seen);
      PreOrder(store, a + b, seen) == first + PreOrder(store, b, seen + Elements(first))
    decreases store.Keys - seen, |a|
  {
    hide Children;
    if a == [] {
      assert a + b == b;
      assert seen + Elements([]) == seen;
    } else {
      assert (a + b)[1..] == a[1..] + b;
      var id := a[0];
      if id in seen {
        PreOrderSplit(store, a[1..], b, seen);
      } else {
        var next := if id in store then Children(store, id) + a[1..] else a[1..];
        if id in store {
          assert id in store.Keys - seen;
          assert Children(store, id) + (a[1..] + b) == next + b;
        }
        PreOrderSplit(store, next, b, seen + {id});
        var tail := PreOrder(store, next, seen + {id});
        assert PreOrder(store, a, seen) == [id] + tail;
        assert seen + Elements([id] + tail) == seen + {id} + Elements(tail);
      }
    }
  }

  /** Nothing is emitted twice, nor again, and everything on the list is seen in the end. */
  lemma {:induction false} PreOrderFresh(store: Store, work: seq<BlobId>, seen: set<BlobId>)
    ensures var order := PreOrder(store, work, seen);
      && (forall id :: id in order ==> id !in seen)
      && (forall i, j :: 0 <= i < j < |order| ==> order[i] != order[j])
      && (forall id :: id in work ==> id in seen || id in order)
    decreases store.Keys - seen, |work|
  {
    hide Children;
    if work != [] {
      var id := work[0];
      if id in seen {
        PreOrderFresh(store, work[1..], seen);
      } else {
        var next := if id in store then Children(store, id) + work[1..] else work[1..];
        if id in store { assert id in store.Keys - seen; }
        PreOrderFresh(store, next, seen + {id});
        assert forall w :: w in work ==> w == id || w in next;
      }
    }
  }

  /** The children of every emitted id are seen in the end. */
  lemma {:induction false} PreOrderClosed(store: Store, work: seq<BlobId>, seen: set<BlobId>, id: BlobId, child: BlobId)
    requires id in PreOrder(store, work, seen) && child in Children(store, id)
    ensures child in seen || child in PreOrder(store, work, seen)
    decreases store.Keys - seen, |work|
  {
    hide Scan;
    var front := work[0];
    if front in seen {
      PreOrderClosed(store, work[1..], seen, id, child);
    } else {
      var next := if front in store then Children(store, front) + work[1..] else work[1..];
      if front in store { assert front in store.Keys - seen; }
      if id == front {
        PreOrderFresh(store, next, seen + {front});
        assert child in next;
      } else {
        PreOrderClosed(store, next, seen + {front}, id, child);
      }
    }
  }

  /** Every emitted id can be reached from something on the work list. */
  lemma {:induction false} PreOrderReaches(store: Store, work: seq<BlobId>, seen: set<BlobId>, id: BlobId)
    returns (from: BlobId)
    requires id in PreOrder(store, work, seen)
    ensures from in work && Reachable(store, from, id)
    decreases store.Keys - seen, |work|
  {
    hide Children;
    var front := work[0];
    if front in seen {
      from := PreOrderReaches(store, work[1..], seen, id);
    } else if id == front {
      from := front;
      assert IsPath(store, [front]);
    } else {
      var next := if front in store then Children(store, front) + work[1..] else work[1..];
      if front in store { assert front in store.Keys - seen; }
      from := PreOrderReaches(store, next, seen + {front}, id);
      if from !in work {
        var path :| IsPath(store, path) && path[0] == from && path[|path| - 1] == id;
        assert IsPath(store, [front] + path);
        from := front;
      }
    }
  }

  /** Whatever a path from the root leads to is emitted. */
  lemma {:induction false} PathIsEmitted(store: Store, root: BlobId, path: seq<BlobId>, n: nat)
    requires IsPath(store, path) && path[0] == root && n < |path|
    ensures path[n] in PreOrder(store, [root], {})
  {
    hide Children;
    if n == 0 {
      PreOrderFresh(store, [root], {});
      assert root in [root];
    } else {
      PathIsEmitted(store, root, path, n - 1);
      PreOrderClosed(store, [root], {}, path[n - 1], path[n]);
    }
  }

  /** The pre-order from the root lists exactly the reachable ids, each once, the root first. */
  lemma PreOrderIsReachability(store: Store, root: BlobId)
    ensures forall id :: id in PreOrder(store, [root], {}) <==> Reachable(store, root, id)
    ensures forall i, j :: 0 <= i < j < |PreOrder(store, [root], {})| ==>
      PreOrder(store, [root], {})[i] != PreOrder(store, [root], {})[j]
    ensures PreOrder(store, [root], {}) != [] && PreOrder(store, [root], {})[0] == root
  {
    hide Children;
    PreOrderFresh(store, [root], {});
    assert root in [root];
    forall id ensures id in PreOrder(store, [root], {}) <==> Reachable(store, root, id) {
      if id in PreOrder(store, [root], {}) {
        var from := PreOrderReaches(store, [root], {}, id);
      }
      if Reachable(store, root, id) {
        var path :| IsPath(store, path) && path[0] == root && path[|path| - 1] == id;
        PathIsEmitted(store, root, path, |path| - 1);
      }
    }
  }

  /** The pre-order from a single id, and the message its own text makes. */
  lemma PreOrderOne(store: Store, id: BlobId, seen: set<BlobId>, role: Role)
    ensures var order := PreOrder(store, [id], seen);
      && (id in seen ==> order == [] && seen + Elements(order) == seen && MessagesOf(store, order, id, role) == [])
      && (id !in seen ==>
        var rest := PreOrder(store, Children(store, id), seen + {id});
        var texts := TextsAt(store, id);
        && order == [id] + rest
        && seen + Elements(order) == seen + {id} + Elements(rest)
        && MessagesOf(store, order, id, role)
           == (if texts == [] then [] else [ThreadMessage(role, Join(texts))]) + MessagesOf(store, rest, id, role)
        && (id !in store ==> order == [id] && MessagesOf(store, order, id, role) == []))
  {
    hide Scan;
    if id !in seen {
      assert Children(store, id) + [] == Children(store, id);
      var rest := PreOrder(store, Children(store, id), seen + {id});
      assert ([id] + rest)[1..] == rest;
    }
  }

  lemma NothingYet(store: Store, seen: set<BlobId>, root: BlobId, role: Role)
    ensures PreOrder(store, [], seen) == [] && seen + Elements([]) == seen && MessagesOf(store, [], root, role) == []
  {
  }

  /** Walking one more child of a visited parent extends the pre-order, the visited set and the messages. */
  lemma WalkExtends(store: Store, children: seq<BlobId>, k: nat, seen: set<BlobId>, parent: BlobId, role: Role)
    requires k < |children| && parent in seen
    ensures var done := PreOrder(store, children[..k], seen);
      var more := PreOrder(store, [children[k]], seen + Elements(done));
      && PreOrder(store, children[..k + 1], seen) == done + more
      && seen + Elements(done + more) == seen + Elements(done) + Elements(more)
      && MessagesOf(store, done + more, parent, role)
         == MessagesOf(store, done, parent, role) + MessagesOf(store, more, children[k], RoleAssistant)
      && forall id :: id in more ==> id in PreOrder(store, children, seen)
  {
    hide PreOrder;
    hide MessagesOf;
    var done := PreOrder(store, children[..k], seen);
    var more := PreOrder(store, [children[k]], seen + Elements(done));
    assert children[..k + 1] == children[..k] + [children[k]];
    PreOrderSplit(store, children[..k], [children[k]], seen);
    assert children == children[..k + 1] + children[k + 1..];
    PreOrderSplit(store, children[..k + 1], children[k + 1..], seen);
    PreOrderFresh(store, [children[k]], seen + Elements(done));
    MessagesElsewhere(store, more, parent, children[k], role);
    MessagesAppend(store, done, more, parent, role);
  }

  /** Every emitted id was on the work list or is referenced by an id emitted before it. */
  lemma {:induction false} ParentPrecedes(store: Store, work: seq<BlobId>, seen: set<BlobId>, j: nat)
    requires j < |PreOrder(store, work, seen)|
    ensures var order := PreOrder(store, work, seen);
      order[j] in work || exists i :: 0 <= i < j && order[j] in Children(store, order[i])
    decreases store.Keys - seen, |work|
  {
    hide Children;
    var front := work[0];
    if front in seen {
      ParentPrecedes(store, work[1..], seen, j);
    } else if j > 0 {
      var next := if front in store then Children(store, front) + work[1..] else work[1..];
      if front in store { assert front in store.Keys - seen; }
      var order, tail := PreOrder(store, work, seen), PreOrder(store, next, seen + {front});
      assert order == [front] + tail;
      ParentPrecedes(store, next, seen + {front}, j - 1);
      if exists i :: 0 <= i < j - 1 && tail[j - 1] in Children(store, tail[i]) {
        var i :| 0 <= i < j - 1 && tail[j - 1] in Children(store, tail[i]);
        assert order[i + 1] == tail[i];
      } else if order[j] !in work {
        assert order[j] in Children(store, order[0]);
      }
    }
  }

  lemma {:induction false} AllAssistant(store: Store, order: seq<BlobId>, other: BlobId)
    ensures forall m :: m in MessagesOf(store, order, other, RoleAssistant) ==> m.role == RoleAssistant
  {
    hide TextsAt;
    if order != [] { AllAssistant(store, order[1..], other); }
  }

  /** In the result of a walk the user's role is on the first message when the root has text, and nowhere else. */
  lemma OnlyRootIsUser(store: Store, root: BlobId, k: nat)
    requires k < |MessagesOf(store, PreOrder(store, [root], {}), root, RoleUser)|
    ensures MessagesOf(store, PreOrder(store, [root], {}), root, RoleUser)[k].role == RoleUser
      <==> k == 0 && TextsAt(store, root) != []
  {
    hide Scan;
    hide TextsAt;
    var order := PreOrder(store, [root], {});
    PreOrderIsReachability(store, root);
    assert root !in order[1..];
    MessagesElsewhere(store, order[1..], root, root, RoleUser);
    AllAssistant(store, order[1..], root);
    var first, rest := MessageOf(store, root, root, RoleUser), MessagesOf(store, order[1..], root, RoleUser);
    assert k >= |first| ==> (first + rest)[k] == rest[k - |first|];
  }

  // ---- The walk ----

  class Walker {
    const store: Store
    var visited: set<BlobId>
    var messages: seq<ThreadMessage>

    constructor (store: Store)
      ensures this.store == store && visited == {} && messages == []
    {
      this.store := store;
      visited, messages := {}, [];
    }

    /** The recursive walk adds exactly the pre-order of what was not visited before; it is cut short
        by a panic exactly when that order meets a blob with such a prefix. */
    method ExtractFromBlob(blobId: BlobId, defaultRole: Role) returns (panicked: bool)
      modifies this
      ensures var order := PreOrder(store, [blobId], old(visited));
        && (panicked <==> exists id :: id in order && Bad(store, id))
        && (!panicked ==>
          && visited == old(visited) + Elements(order)
          && messages == old(messages) + MessagesOf(store, order, blobId, defaultRole))
      decreases store.Keys - visited, 0
    {
      hide Scan;
      hide PreOrder;
      hide MessagesOf;
      hide HasHugePrefix;
      PreOrderOne(store, blobId, visited, defaultRole);
      if blobId in visited { return false; }
      visited := visited + {blobId};
      if blobId !in store { return false; }
      assert blobId in store.Keys - old(visited);
      var texts, childBlobs, bad := ParseProtobufBlob(store[blobId]);
      RefsAreHex(store[blobId]);
      PanicsIffHugePrefix(store[blobId]);
      if bad {
        assert Bad(store, blobId);
        return true;
      }
      if |texts| > 0 {
        messages := messages + [ThreadMessage(defaultRole, Join(texts))];
      }
      panicked := WalkChildren(childBlobs, blobId, defaultRole);
    }

    /** The loop over the children of one blob. */
    method WalkChildren(childBlobs: seq<BlobId>, ghost parent: BlobId, ghost role: Role) returns (panicked: bool)
      requires parent in visited && forall child :: child in childBlobs ==> |child| == 64
      modifies this
      ensures var order := PreOrder(store, childBlobs, old(visited));
        && (panicked <==> exists id :: id in order && Bad(store, id))
        && (!panicked ==>
          && visited == old(visited) + Elements(order)
          && messages == old(messages) + MessagesOf(store, order, parent, role))
      decreases store.Keys - visited, 1
    {
      hide Scan;
      hide PreOrder;
      hide MessagesOf;
      hide Bad;
      ghost var seen := visited;
      NothingYet(store, seen, parent, role);
      assert childBlobs[..0] == [];
      for k := 0 to |childBlobs|
        invariant visited == seen + Elements(PreOrder(store, childBlobs[..k], seen))
        invariant messages == old(messages) + MessagesOf(store, PreOrder(store, childBlobs[..k], seen), parent, role)
        invariant forall id :: id in PreOrder(store, childBlobs[..k], seen) ==> !Bad(store, id)
      {
        WalkExtends(store, childBlobs, k, seen, parent, role);
        var childId := childBlobs[k];
        assert childId in childBlobs;
        if |childId| == 64 {
          panicked := ExtractFromBlob(childId, RoleAssistant);
          if panicked { return true; }
        }
      }
      assert childBlobs[..|childBlobs|] == childBlobs;
      return false;
    }
  }

  /** References are the hex of 32 bytes, so the walk's length test never rejects one. */
  lemma {:induction false} RefsAreHex(data: Bytes)
    ensures Scan(data).Scanned? ==> forall ref :: ref in Scan(data).refs ==> |ref| == 64
    decreases |data|
  {
    if data != [] {
      StepRefIsHex(data);
      RefsAreHex(Drop(data, FieldStep(data).size));
    }
  }

  lemma StepRefIsHex(data: Bytes)
    requires data != []
    ensures FieldStep(data).emission.Ref? ==> |FieldStep(data).emission.id| == 64
  {
  }

  /** The whole walk, from an empty visited map: it panics exactly when a reachable blob has a field with a length
      prefix of 2^63 or more, and otherwise has visited exactly the reachable ids and produced one message for each that
      has text, in depth-first pre-order, the user's role on the root alone. */
  method WalkBlobs(store: Store, rootBlobId: BlobId) returns (walker: Walker, panicked: bool)
    ensures panicked <==> exists id :: Reachable(store, rootBlobId, id) && Bad(store, id)
    ensures !panicked ==>
      && (forall id :: id in walker.visited <==> Reachable(store, rootBlobId, id))
      && walker.messages == MessagesOf(store, PreOrder(store, [rootBlobId], {}), rootBlobId, RoleUser)
  {
    hide Bad;
    walker := new Walker(store);
    panicked := walker.ExtractFromBlob(rootBlobId, RoleUser);
    PreOrderIsReachability(store, rootBlobId);
  }
}
