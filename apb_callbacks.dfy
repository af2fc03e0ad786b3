/** The clock-change callback registry of ppm_generator.c: a doubly linked
    list of `(arg, cb)` registrations, headed by `apb_change_callbacks`, into
    which `addApbChangeCallback` prepends new pairs and refuses duplicates. */
module ApbCallbacks {

  /** A callback function pointer: `_on_apb_change` or some other function,
      named by its address. */
  datatype Callback = OnApbChange | OtherCallback(address: nat)

  /** A registered pair; `arg` is the `void *` context, compared by identity. */
  datatype Registration = Registration(arg: object, cb: Callback)

  /** No two registrations share `(arg, cb)`. */
  ghost predicate Unique(s: seq<Registration>)
  {
    forall i, j :: 0 <= i < j < |s| ==> s[i] != s[j]
  }

  /** `apb_change_t`: a list node. */
  class Node {
    var prev: Node?
    var next: Node?
    const arg: object
    const cb: Callback

    constructor (arg: object, cb: Callback)
      ensures this.arg == arg && this.cb == cb && prev == null && next == null
    {
      this.arg := arg;
      this.cb := cb;
      prev := null;
      next := null;
    }
  }

  class Registry {
    /** `apb_change_callbacks`. */
    var head: Node?
    /** The nodes in list order from the head, and their registrations. */
    ghost var nodes: seq<Node>
    ghost var contents: seq<Registration>
    ghost var Repr: set<object>

    ghost predicate Valid()
      reads this, Repr
    {
      && this in Repr
      && |contents| == |nodes|
      && (forall i :: 0 <= i < |nodes| ==> nodes[i] in Repr)
      && head == (if |nodes| == 0 then null else nodes[0])
      && (forall i :: 0 <= i < |nodes| - 1 ==> nodes[i].next == nodes[i + 1])
      && (forall i :: 0 < i < |nodes| ==> nodes[i].prev == nodes[i - 1])
      && (|nodes| > 0 ==> nodes[0].prev == null && nodes[|nodes| - 1].next == null)
      && (forall i :: 0 <= i < |nodes| ==> contents[i] == Registration(nodes[i].arg, nodes[i].cb))
      && Unique(contents)
    }

    /** The empty list: `apb_change_callbacks = NULL`. */
    constructor ()
      ensures Valid() && fresh(Repr) && contents == []
    {
      head := null;
      nodes := [];
      contents := [];
      Repr := {this};
    }

    /** The duplicate search of `addApbChangeCallback`: walk from the head
        until a node with the same `cb` and `arg` turns up or the list ends. */
    method Contains(arg: object, cb: Callback) returns (found: bool)
      requires Valid()
      ensures found <==> Registration(arg, cb) in contents
    {
      var r := head;
      ghost var k := 0;
      while r != null && !(r.cb == cb && r.arg == arg)
        invariant 0 <= k <= |nodes|
        invariant k < |nodes| ==> r == nodes[k]
        invariant k == |nodes| ==> r == null
        invariant forall j :: 0 <= j < k ==> contents[j] != Registration(arg, cb)
        decreases |nodes| - k
      {
        r := r.next;
        k := k + 1;
      }
      found := r != null;
    }

    /** Links a fresh node in front of a non-empty list. Only the old head's
        `prev` changes among the old nodes: every later node already has a
        non-null `prev`. */
    method Prepend(c: Node)
      requires Valid() && head != null && c !in Repr
      requires c.prev == null && c.next == null
      requires Registration(c.arg, c.cb) !in contents
      modifies this, c, head
      ensures Valid() && Repr == old(Repr) + {c}
      ensures nodes == [c] + old(nodes) && contents == [Registration(c.arg, c.cb)] + old(contents)
      ensures head == c && c.prev == null && c.next == old(head) && old(head).prev == c
    {
      assert forall i :: 0 < i < |nodes| ==> nodes[i] != head;
      c.next := head;
      head.prev := c;
      head := c;
      nodes := [c] + nodes;
      contents := [Registration(c.arg, c.cb)] + contents;
      Repr := Repr + {c};
    }

    /** `addApbChangeCallback`. `allocOk` says whether `malloc` succeeded. On
        success the pair is the new head, linked in front of the old head. */
    method Add(arg: object, cb: Callback, allocOk: bool) returns (ok: bool)
      requires Valid()
      modifies Repr
      ensures Valid() && fresh(Repr - old(Repr))
      ensures ok <==> allocOk && Registration(arg, cb) !in old(contents)
      ensures contents == if ok then [Registration(arg, cb)] + old(contents) else old(contents)
      ensures ok ==> head != null && head.arg == arg && head.cb == cb
      ensures ok ==> head.prev == null && head.next == old(head)
      ensures ok && old(head) != null ==> old(head).prev == head
      ensures !ok ==> unchanged(this) && unchanged(old(nodes))
    {
      if !allocOk {
        return false;
      }
      var c := new Node(arg, cb);
      if head == null {
        head := c;
        nodes := [c];
        contents := [Registration(arg, cb)];
        Repr := Repr + {c};
        return true;
      }
      var duplicate := Contains(arg, cb);
      if duplicate {
        // free(c)
        return false;
      }
      Prepend(c);
      ok := true;
    }
  }
}
