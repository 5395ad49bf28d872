/** The linked list of files to search, as search_dir appends to it and the workers take from it
    (search.c; both under work_queue_mtx). */
module WorkQueue {

  /** work_queue_t. */
  class Node {
    var path: string
    var next: Node?

    constructor (path: string)
      ensures this.path == path && next == null
    {
      this.path, next := path, null;
    }
  }

  class Queue {
    var head: Node?                        // work_queue
    var tail: Node?                        // work_queue_tail
    ghost var nodes: seq<Node>

    ghost predicate Valid()
      reads this, nodes
    {
      && (forall i, j | 0 <= i < j < |nodes| :: nodes[i] != nodes[j])
      && (if nodes == [] then head == null && tail == null
          else head == nodes[0] && tail == nodes[|nodes| - 1] && nodes[|nodes| - 1].next == null)
      && forall i | 0 <= i < |nodes| - 1 :: nodes[i].next == nodes[i + 1]
    }

    /** The paths still to be searched, the next one first. */
    ghost function Contents(): (paths: seq<string>)
      reads this, nodes
    {
      seq(|nodes|, i requires 0 <= i < |nodes| reads this, nodes => nodes[i].path)
    }

    constructor ()
      ensures Valid() && Contents() == []
    {
      head, tail, nodes := null, null, [];
    }

    /** search_dir: append one path. */
    method Enqueue(path: string)
      requires Valid()
      modifies this, nodes
      ensures Valid() && Contents() == old(Contents()) + [path]
      ensures old(nodes) <= nodes && |nodes| == |old(nodes)| + 1 && fresh(nodes[|old(nodes)|])
    {
      var item := new Node(path);
      if tail == null {
        head := item;
      } else {
        tail.next := item;
      }
      tail := item;
      nodes := nodes + [item];
    }

    /** search_file_worker: take the first path; there is one. */
    method Dequeue() returns (path: string)
      requires Valid() && Contents() != []
      modifies this
      ensures Valid() && old(Contents()) == [path] + Contents()
      ensures nodes == old(nodes)[1..]
    {
      var item := head;
      head := head.next;
      if head == null {
        tail := null;
      }
      path := item.path;
      nodes := nodes[1..];
    }
  }
}
