/**
 * The console playlist of the MP3 player: a singly linked list whose first
 * node (the header) carries the playlist's name and whose later nodes carry
 * the songs, and a "recently played" stack, also built of nodes, that never
 * holds the same song twice in a row.
 *
 * The nodes a list is made of are given as a ghost sequence `nodes` with
 * `Chain(nodes)`: each node links to the next and the last one to null, so
 * no node appears twice (`ChainDistinct`). `Songs(nodes)` is what the list
 * holds.
 */
module SongList {
  import opened Wrappers
  import opened Text

  class Node {
    const song: string
    var next: Node?

    constructor (song: string)
      ensures this.song == song && next == null
    {
      this.song := song;
      next := null;
    }
  }

  /** `nodes` is a null-terminated chain: each node links to the next, the last one to null. */
  ghost predicate Chain(nodes: seq<Node>)
    reads nodes
  {
    (forall i :: 0 <= i < |nodes| - 1 ==> nodes[i].next == nodes[i + 1]) &&
    (nodes != [] ==> nodes[|nodes| - 1].next == null)
  }

  /** Two places of a chain hold different nodes: a node reached twice would make the chain cycle. */
  lemma {:induction false} ChainDistinctAt(nodes: seq<Node>, i: nat, j: nat)
    requires Chain(nodes) && i < j < |nodes|
    ensures nodes[i] != nodes[j]
    decreases |nodes| - j
  {
    assert nodes[i].next == nodes[i + 1];
    if j < |nodes| - 1 {
      ChainDistinctAt(nodes, i + 1, j + 1);
      assert nodes[j].next == nodes[j + 1];
    }
  }

  /** No node appears twice in a chain. */
  lemma ChainDistinct(nodes: seq<Node>)
    requires Chain(nodes)
    ensures forall i, j :: 0 <= i < j < |nodes| ==> nodes[i] != nodes[j]
  {
    forall i, j | 0 <= i < j < |nodes|
      ensures nodes[i] != nodes[j]
    {
      ChainDistinctAt(nodes, i, j);
    }
  }

  /** The first node of a chain, or null for the empty one. */
  ghost function Head(nodes: seq<Node>): Node? {
    if nodes == [] then null else nodes[0]
  }

  /** The songs a chain holds, in order. */
  ghost function Songs(nodes: seq<Node>): (r: seq<string>)
    ensures |r| == |nodes| && forall i :: 0 <= i < |nodes| ==> r[i] == nodes[i].song
  {
    seq(|nodes|, i requires 0 <= i < |nodes| => nodes[i].song)
  }

  /** A node linked in front of a chain it is not part of makes a longer chain. */
  lemma ChainCons(n: Node, nodes: seq<Node>)
    requires Chain(nodes) && n.next == Head(nodes)
    ensures Chain([n] + nodes) && Songs([n] + nodes) == [n.song] + Songs(nodes)
  {
    assert ([n] + nodes)[1..] == nodes;
  }

  /** The songs in ascending order, equal neighbours allowed. */
  predicate Sorted(s: seq<string>) {
    forall p, q :: 0 <= p < q < |s| ==> LessEq(s[p], s[q])
  }

  // ---------------------------------------------------------------------------
  // Walking the playlist
  // ---------------------------------------------------------------------------

  /** `add_node_file`: walks to the tail and links one new node holding `a` after it. */
  method AddNodeFile(first: Node, a: string, ghost nodes: seq<Node>) returns (ghost nodes': seq<Node>)
    requires Chain(nodes) && nodes != [] && nodes[0] == first
    modifies nodes[|nodes| - 1]
    ensures Chain(nodes') && |nodes'| == |nodes| + 1 && nodes'[..|nodes|] == nodes
    ensures fresh(nodes'[|nodes|])
    ensures Songs(nodes') == Songs(nodes) + [a]
  {
    var p := first;
    ghost var k := 0;
    while p.next != null
      invariant 0 <= k < |nodes| && p == nodes[k] && p.next == Head(nodes[k + 1..])
      decreases |nodes| - k
    {
      p := p.next;
      k := k + 1;
    }
    var n := new Node(a);
    p.next := n;
    nodes' := nodes + [n];
    assert nodes'[..|nodes|] == nodes;
  }

  /**
   * `del_node`: walks to the node before the tail and cuts the tail off. The
   * list must hold the header and at least one song: on a header alone the
   * source dereferences `None`.
   */
  method DelNode(first: Node, ghost nodes: seq<Node>) returns (ghost nodes': seq<Node>)
    requires Chain(nodes) && |nodes| >= 2 && nodes[0] == first
    modifies nodes[|nodes| - 2]
    ensures nodes' == nodes[..|nodes| - 1] && Chain(nodes')
    ensures Songs(nodes') == Songs(nodes)[..|nodes| - 1]
  {
    ChainDistinct(nodes);
    var p := first;
    ghost var k := 0;
    while p.next.next != null
      invariant 0 <= k < |nodes| - 1 && p == nodes[k] && p.next == nodes[k + 1]
      invariant p.next.next == Head(nodes[k + 2..])
      decreases |nodes| - k
    {
      p := p.next;
      k := k + 1;
    }
    p.next := null;
    nodes' := nodes[..|nodes| - 1];
  }

  /** `count_nodes` on the header: the number of songs, that is, every node but the header. */
  method CountNodes(first: Node, ghost nodes: seq<Node>) returns (count: int)
    requires Chain(nodes) && nodes != [] && nodes[0] == first
    ensures count == |Songs(nodes)| - 1
  {
    var p := first;
    var i := 0;
    while p.next != null
      invariant 0 <= i < |nodes| && p == nodes[i] && p.next == Head(nodes[i + 1..])
      decreases |nodes| - i
    {
      p := p.next;
      i := i + 1;
    }
    i := i + 1;
    count := i - 1;
  }

  /**
   * The search loop of `search1` and `play`: walks from `first` to the end and
   * stops at the first node holding `song`.
   */
  method Search(first: Node?, song: string, ghost nodes: seq<Node>) returns (found: bool)
    requires Chain(nodes) && first == Head(nodes)
    ensures found <==> song in Songs(nodes)
  {
    var p := first;
    ghost var k := 0;
    found := false;
    while p != null
      invariant 0 <= k <= |nodes| && p == Head(nodes[k..])
      invariant forall j :: 0 <= j < k ==> nodes[j].song != song
      decreases |nodes| - k
    {
      if p.song == song {
        found := true;
        break;
      }
      p := p.next;
      k := k + 1;
    }
  }

  /** The search as intended: among the songs, leaving out the header and its playlist name. */
  method SearchSongs(start: Node, song: string, ghost nodes: seq<Node>) returns (found: bool)
    requires Chain(nodes) && nodes != [] && nodes[0] == start
    ensures found <==> song in Songs(nodes)[1..]
  {
    assert Songs(nodes[1..]) == Songs(nodes)[1..];
    found := Search(start.next, song, nodes[1..]);
  }

  // ---------------------------------------------------------------------------
  // Sorting the playlist in place
  // ---------------------------------------------------------------------------

  /** The sequence with the entries at `i` and `i + 1` exchanged. */
  function Swapped<T>(s: seq<T>, i: nat): (r: seq<T>)
    requires i + 1 < |s|
    ensures |r| == |s| && r[i] == s[i + 1] && r[i + 1] == s[i]
    ensures forall j :: 0 <= j < |s| && j != i && j != i + 1 ==> r[j] == s[j]
  {
    s[i := s[i + 1]][i + 1 := s[i]]
  }

  /** Exchanging two neighbours keeps the same entries. */
  lemma SwappedPermutes<T>(s: seq<T>, i: nat)
    requires i + 1 < |s|
    ensures multiset(Swapped(s, i)) == multiset(s)
  {
    var r := Swapped(s, i);
    assert s == s[..i] + [s[i], s[i + 1]] + s[i + 2..];
    assert r == s[..i] + [s[i + 1], s[i]] + s[i + 2..];
  }

  /** The songs of the chain with two neighbours exchanged are its songs with the two exchanged. */
  lemma SongsSwapped(nodes: seq<Node>, i: nat)
    requires i + 1 < |nodes|
    ensures Songs(Swapped(nodes, i)) == Swapped(Songs(nodes), i)
  {
  }

  /** Every entry from `k` on is no smaller than any entry before it: the tail from `k` is sorted and in place. */
  ghost predicate SortedTail(s: seq<string>, k: int) {
    forall p, q :: 0 <= p < q < |s| && k <= q ==> LessEq(s[p], s[q])
  }

  /** Entry `i` is a largest among the entries up to `i`. */
  ghost predicate MaxAt(s: seq<string>, i: int)
    requires 0 <= i < |s|
  {
    forall p :: 0 <= p <= i ==> LessEq(s[p], s[i])
  }

  lemma LessEqReflexive(a: string)
    ensures LessEq(a, a)
  {
    LessIrreflexive(a);
  }

  /** A bubble step that keeps two neighbours in place carries the largest one along. */
  lemma MaxStepKeep(s: seq<string>, i: nat)
    requires i + 1 < |s| && MaxAt(s, i) && LessEq(s[i], s[i + 1])
    ensures MaxAt(s, i + 1)
  {
    forall p | 0 <= p <= i + 1
      ensures LessEq(s[p], s[i + 1])
    {
      if p <= i {
        LessEqTransitive(s[p], s[i], s[i + 1]);
      } else {
        LessEqReflexive(s[p]);
      }
    }
  }

  /** A bubble step that exchanges two neighbours carries the largest one along. */
  lemma MaxStepSwap(s: seq<string>, i: nat)
    requires i + 1 < |s| && MaxAt(s, i) && Less(s[i + 1], s[i])
    ensures MaxAt(Swapped(s, i), i + 1)
  {
    var r := Swapped(s, i);
    forall p | 0 <= p <= i + 1
      ensures LessEq(r[p], r[i + 1])
    {
      if p < i {
        assert r[p] == s[p];
      } else if p == i {
        LessAsymmetric(s[i + 1], s[i]);
      } else {
        LessEqReflexive(r[p]);
      }
    }
  }

  /** A bubble pass that brings the largest entry before `k` to `k - 1` has sorted one more entry. */
  lemma PassDone(s: seq<string>, k: int)
    requires 1 <= k <= |s| && SortedTail(s, k) && MaxAt(s, k - 1)
    ensures SortedTail(s, k - 1)
  {
  }

  /** Exchanging two neighbours before `k` leaves the sorted tail from `k` in place. */
  lemma SwapBelow(s: seq<string>, i: nat, k: int)
    requires i + 1 < k <= |s| && SortedTail(s, k)
    ensures SortedTail(Swapped(s, i), k)
  {
    var r := Swapped(s, i);
    forall p, q | 0 <= p < q < |s| && k <= q
      ensures LessEq(r[p], r[q])
    {
      if p == i {
        assert LessEq(s[i + 1], s[q]);
      } else if p == i + 1 {
        assert LessEq(s[i], s[q]);
      } else {
        assert LessEq(s[p], s[q]);
      }
    }
  }

  /**
   * Relinks the neighbours `a` (at `i`) and `b` (at `i + 1`) so that `b` comes
   * first; `c`, the node before `a`, is relinked to `b` unless `a` is the head.
   */
  method SwapNodes(c: Node, a: Node, b: Node, atHead: bool, ghost cur: seq<Node>, ghost i: nat)
    returns (ghost cur': seq<Node>)
    requires Chain(cur) && i + 1 < |cur| && cur[i] == a && cur[i + 1] == b
    requires atHead <==> i == 0
    requires !atHead ==> cur[i - 1] == c
    modifies a, b, if atHead then {} else {c}
    ensures cur' == Swapped(cur, i) && Chain(cur') && multiset(cur') == multiset(cur)
  {
    ChainDistinct(cur);
    var tmp := b.next;
    b.next := a;
    a.next := tmp;
    if !atHead {
      c.next := b;
    }
    cur' := Swapped(cur, i);
    SwappedPermutes(cur, i);
    forall j | 0 <= j < |cur'| - 1
      ensures cur'[j].next == cur'[j + 1]
    {
      if j + 1 < i || j > i + 1 {
        assert cur'[j] == cur[j] && cur[j] != a && cur[j] != b && (atHead || cur[j] != c);
      }
    }
  }

  /**
   * The exchange in `sort`'s inner loop: `a` and its successor `b` swap
   * places in the chain, and `c` (the node before `a`) or the head pointer is
   * relinked to `b`. The larger song moves up to index `i + 1`.
   */
  method SwapStep(pointer: Node, c: Node, a: Node, b: Node,
                  ghost cur: seq<Node>, ghost i: nat, ghost K: nat)
    returns (pointer': Node, ghost cur': seq<Node>)
    requires i + 1 < K <= |cur|
    requires Chain(cur) && cur[0] == pointer
    requires i == 0 ==> c == pointer
    requires i > 0 ==> c == cur[i - 1]
    requires a == cur[i] && b == cur[i + 1] && Less(b.song, a.song)
    requires MaxAt(Songs(cur), i) && SortedTail(Songs(cur), K)
    modifies a, b, c
    ensures Chain(cur') && cur' == Swapped(cur, i) && cur'[0] == pointer'
    ensures |cur'| == |cur| && cur'[i] == b && cur'[i + 1] == a
    ensures K < |cur| ==> cur'[K] == cur[K]
    ensures multiset(cur') == multiset(cur)
    ensures Songs(cur') == Swapped(Songs(cur), i)
    ensures multiset(Songs(cur')) == multiset(Songs(cur))
    ensures MaxAt(Songs(cur'), i + 1) && SortedTail(Songs(cur'), K)
  {
    ghost var ss := Songs(cur);
    SwappedPermutes(ss, i);
    SongsSwapped(cur, i);
    SwapBelow(ss, i, K);
    MaxStepSwap(ss, i);
    if i > 0 {
      ChainDistinctAt(cur, 0, i);
    }
    var atHead := a == pointer;
    cur' := SwapNodes(c, a, b, atHead, cur, i);
    pointer' := if atHead then b else pointer;
  }

  /**
   * The end of a step of `sort`'s inner loop: `b` becomes the successor of
   * `a`, and when that successor is `e` the pass is over and `e` moves back
   * onto `a`, the largest song before it.
   */
  method PassBoundary(e: Node?, a: Node, ghost cur: seq<Node>, ghost i: nat, ghost K: nat)
    returns (b': Node?, e': Node?, ghost K': nat)
    requires Chain(cur) && K <= |cur| && e == (if K < |cur| then cur[K] else null)
    requires 0 < i < K && a == cur[i]
    requires MaxAt(Songs(cur), i) && SortedTail(Songs(cur), K)
    ensures K' <= |cur| && e' == (if K' < |cur| then cur[K'] else null)
    ensures (i + 1 < K' && K' == K) || (i == K' && K' == K - 1)
    ensures i < K' ==> b' == cur[i + 1] && a != e'
    ensures SortedTail(Songs(cur), K')
  {
    ghost var n := |cur|;
    b' := a.next;
    assert b' == if i + 1 < n then cur[i + 1] else null;
    if K < n {
      ChainDistinctAt(cur, i, K);
      if i + 1 < K {
        ChainDistinctAt(cur, i + 1, K);
      }
    }
    e' := e;
    K' := K;
    if b' == e {
      assert i + 1 == K;
      PassDone(Songs(cur), K);
      e' := a;
      K' := K - 1;
    } else {
      assert i + 1 < K by {
        assert i + 1 != K;
      }
    }
  }

  /**
   * One step of a pass of `sort`'s inner loop: when `a.song > b.song` the two
   * nodes are exchanged (`c`, the node before `a`, is relinked to `b`),
   * otherwise `a` moves on; either way the node at the next index holds the
   * largest song seen so far in the pass. When the successor of `a` reaches
   * `e`, `e` moves back onto `a`.
   */
  method PassStep(ghost cur0: seq<Node>, ghost k: nat, pointer: Node, e: Node?, c: Node, a: Node, b: Node?,
                  ghost cur: seq<Node>, ghost i: nat, ghost K: nat)
    returns (pointer': Node, e': Node?, c': Node, a': Node, b': Node?,
             ghost cur': seq<Node>, ghost i': nat, ghost K': nat)
    requires PassState(cur0, k, pointer, e, c, a, b, cur, i, K) && a != e
    modifies set x | x in cur0
    ensures PassState(cur0, k, pointer', e', c', a', b', cur', i', K')
    ensures i' == i + 1 && K' <= K
  {
    assert i < K;
    assert a in multiset(cur) && b in multiset(cur) && c in multiset(cur);
    cur' := cur;
    pointer' := pointer;
    if Less(b.song, a.song) {
      pointer', cur' := SwapStep(pointer, c, a, b, cur, i, K);
      c' := b;
      a' := a;
    } else {
      MaxStepKeep(Songs(cur), i);
      c' := a;
      a' := a.next;
    }
    i' := i + 1;
    b', e', K' := PassBoundary(e, a', cur', i', K);
  }

  /**
   * What holds between the steps of a pass that started on the chain `cur0`
   * with `e` at index `k`: the chain `cur` is a rearrangement of `cur0`, `a`
   * is at index `i` with `c` just before it and `b` just after, `e` is at
   * index `K`, the song at `i` is a largest of those up to `i`, and the songs
   * from `K` on are in their final places.
   */
  ghost predicate PassState(cur0: seq<Node>, k: nat, pointer: Node, e: Node?, c: Node, a: Node, b: Node?,
                            cur: seq<Node>, i: nat, K: nat)
    reads cur
  {
    Chain(cur) && |cur| == |cur0| && 2 <= k <= |cur| && cur[0] == pointer &&
    multiset(cur) == multiset(cur0) && multiset(Songs(cur)) == multiset(Songs(cur0)) &&
    K <= |cur| && e == (if K < |cur| then cur[K] else null) &&
    ((i + 1 < K && K == k) || (i == K && K == k - 1)) &&
    i < |cur| && a == cur[i] &&
    (i == 0 ==> c == pointer) && (i > 0 ==> c == cur[i - 1]) &&
    (i < K ==> b == cur[i + 1] && a != e) &&
    MaxAt(Songs(cur), i) && SortedTail(Songs(cur), K)
  }

  /**
   * One pass of `sort`'s outer loop: `a` walks from the head up to `e`,
   * exchanging itself with its successor `b` when `a.song > b.song`
   * (`PassStep`), so the largest song before `e` ends just before `e`, and
   * `e` moves back onto it. The songs from `e` on are already sorted and no
   * smaller than any song before `e`.
   */
  method BubblePass(first: Node, end: Node?, ghost cur: seq<Node>, ghost k: nat)
    returns (pointer: Node, e: Node?, ghost cur': seq<Node>)
    requires Chain(cur) && 2 <= k <= |cur| && cur[0] == first
    requires end == (if k < |cur| then cur[k] else null)
    requires SortedTail(Songs(cur), k)
    modifies set x | x in cur
    ensures Chain(cur') && |cur'| == |cur| && cur'[0] == pointer && e == cur'[k - 1]
    ensures multiset(cur') == multiset(cur) && multiset(Songs(cur')) == multiset(Songs(cur))
    ensures SortedTail(Songs(cur'), k - 1)
  {
    ghost var n := |cur|;
    ghost var K: nat := k;
    cur' := cur;
    pointer := first;
    e := end;
    var c := pointer;
    var a := pointer;
    var b := a.next;
    ghost var i: nat := 0;
    assert b == cur'[1];
    if k < n {
      ChainDistinctAt(cur, 0, k);
    }
    assert MaxAt(Songs(cur), 0) by {
      LessEqReflexive(cur[0].song);
    }
    while a != e
      invariant PassState(cur, k, pointer, e, c, a, b, cur', i, K)
      decreases K - i
    {
      pointer, e, c, a, b, cur', i, K := PassStep(cur, k, pointer, e, c, a, b, cur', i, K);
    }
    assert i == K;
  }

  /**
   * `sort`: the bubble sort of the source, which relinks nodes instead of
   * moving songs; each pass (`BubblePass`) sorts one more song into the tail,
   * until the tail starts at the second node. The list must be non-empty:
   * the source dereferences it before any check.
   */
  method Sort(first: Node, ghost ns: seq<Node>) returns (head: Node, ghost ms: seq<Node>)
    requires Chain(ns) && ns != [] && ns[0] == first
    modifies set x | x in ns
    ensures Chain(ms) && |ms| == |ns| && ms[0] == head && multiset(ms) == multiset(ns)
    ensures Sorted(Songs(ms))
    ensures multiset(Songs(ms)) == multiset(Songs(ns))
  {
    ghost var n := |ns|;
    ghost var K: nat := n;
    ms := ns;
    var pointer := first;
    var e: Node? := null;
    while e != pointer.next
      invariant Chain(ms) && |ms| == n && ms[0] == pointer
      invariant multiset(ms) == multiset(ns) && multiset(Songs(ms)) == multiset(Songs(ns))
      invariant 1 <= K <= n && e == (if K < n then ms[K] else null)
      invariant SortedTail(Songs(ms), K)
      invariant 1 < K ==> e != ms[1]
      decreases K
    {
      assert forall x :: x in ms ==> x in ns by {
        forall x | x in ms
          ensures x in ns
        {
          assert x in multiset(ms);
        }
      }
      pointer, e, ms := BubblePass(pointer, e, ms, K);
      K := K - 1;
      if 1 < K < n {
        ChainDistinctAt(ms, 1, K);
      }
    }
    head := pointer;
  }

  /** Linking `n` in front of a chain it is not part of gives a chain one node longer. */
  method Relink(n: Node, head: Node, ghost ms: seq<Node>)
    requires Chain(ms) && ms != [] && ms[0] == head && n !in ms
    modifies n
    ensures Chain([n] + ms) && Songs([n] + ms) == [n.song] + Songs(ms)
  {
    n.next := head;
    assert Chain(ms);
    ChainCons(n, ms);
  }

  /** Menu choice 9, `start.next = sort(start.next)`: the header stays first, the songs behind it are sorted. */
  method SortSongs(start: Node, ghost nodes: seq<Node>) returns (ghost nodes': seq<Node>)
    requires Chain(nodes) && |nodes| >= 2 && nodes[0] == start
    modifies nodes
    ensures Chain(nodes') && |nodes'| == |nodes| && nodes'[0] == start
    ensures Songs(nodes')[0] == start.song
    ensures Sorted(Songs(nodes')[1..])
    ensures multiset(Songs(nodes')[1..]) == multiset(Songs(nodes)[1..])
  {
    assert Songs(nodes[1..]) == Songs(nodes)[1..];
    assert start !in nodes[1..] by {
      forall j | 1 <= j < |nodes|
        ensures nodes[j] != start
      {
        ChainDistinctAt(nodes, 0, j);
      }
    }
    assert Chain(nodes[1..]) && start.next == nodes[1];
    var head;
    ghost var ms;
    head, ms := Sort(start.next, nodes[1..]);
    assert start !in ms by {
      assert start !in multiset(nodes[1..]);
      assert start !in multiset(ms);
    }
    Relink(start, head, ms);
    nodes' := [start] + ms;
    assert nodes'[1..] == ms;
  }

  // ---------------------------------------------------------------------------
  // The recently-played stack
  // ---------------------------------------------------------------------------

  /** No song directly above the same song. */
  predicate NoAdjacentRepeats(s: seq<string>) {
    forall i :: 0 <= i < |s| - 1 ==> s[i] != s[i + 1]
  }

  /** What `push` does to the stack's songs, top first. */
  function Pushed(s: seq<string>, data: string): (r: seq<string>)
    ensures r != [] && r[0] == data
    ensures r[1..] == s || (s != [] && s[0] == data && r == s)
    ensures NoAdjacentRepeats(s) ==> NoAdjacentRepeats(r)
  {
    if s == [] then [data]
    else if s[0] != data then [data] + s
    else s
  }

  /** Pushing the song that was just pushed changes nothing. */
  lemma PushIdempotent(s: seq<string>, data: string)
    ensures Pushed(Pushed(s, data), data) == Pushed(s, data)
  {
  }

  /** A push adds one entry exactly when the stack is empty or its top is another song. */
  lemma PushGrows(s: seq<string>, data: string)
    ensures |Pushed(s, data)| == if s != [] && s[0] == data then |s| else |s| + 1
  {
  }

  /** A node holding another song than the top, linked in front of the stack, is what `Pushed` describes. */
  lemma PushOnChain(n: Node, nodes: seq<Node>)
    requires Chain(nodes) && n.next == Head(nodes) && NoAdjacentRepeats(Songs(nodes))
    requires nodes != [] && nodes[0].song != n.song
    ensures Chain([n] + nodes) && NoAdjacentRepeats(Songs([n] + nodes))
    ensures Songs([n] + nodes) == Pushed(Songs(nodes), n.song)
  {
    ChainCons(n, nodes);
  }

  class RecentlyPlayed {
    var top: Node?
    /** The nodes of the stack, top first. */
    ghost var nodes: seq<Node>

    ghost predicate Valid()
      reads this, nodes
    {
      Chain(nodes) && top == Head(nodes) && NoAdjacentRepeats(Songs(nodes))
    }

    /** The songs on the stack, most recent first. */
    ghost function Contents(): seq<string>
      reads this
    {
      Songs(nodes)
    }

    /** `create`: an empty stack. */
    constructor ()
      ensures Valid() && Contents() == []
    {
      top := null;
      nodes := [];
    }

    /** `push`: the song goes on top unless it is already the top song. */
    method Push(data: string)
      requires Valid()
      modifies this
      ensures Valid() && Contents() == Pushed(old(Contents()), data)
    {
      ghost var s := Contents();
      if top == null {
        top := new Node(data);
        top.next := null;
        nodes := [top];
        assert Contents() == [data] == Pushed(s, data);
      } else if top.song != data {
        assert s[0] == top.song;
        var temp := new Node(data);
        temp.next := top;
        assert Chain(nodes) && top == Head(nodes) && NoAdjacentRepeats(Songs(nodes));
        PushOnChain(temp, nodes);
        ghost var pushed := [temp] + nodes;
        assert Songs(pushed) == Pushed(s, data);
        top := temp;
        nodes := pushed;
        assert Chain(nodes);
      } else {
        assert s[0] == data;
      }
    }

    /** `topelement`: the last song played, if any. */
    function TopElement(): (r: Option<string>)
      requires Valid()
      reads this, nodes
      ensures r.None? <==> Contents() == []
      ensures r.Some? ==> r.value == Contents()[0]
    {
      if top == null then None else Some(top.song)
    }

    /** `display`: walks the stack from the top and lists every song on it. */
    method Display() returns (songs: seq<string>)
      requires Valid()
      ensures songs == Contents()
    {
      songs := [];
      var p := top;
      ghost var k := 0;
      while p != null
        invariant 0 <= k <= |nodes| && p == Head(nodes[k..])
        invariant songs == Songs(nodes)[..k]
        decreases |nodes| - k
      {
        songs := songs + [p.song];
        p := p.next;
        k := k + 1;
      }
    }
  }

  /**
   * `play` as written: `search1(start)` starts at the header, so the playlist's
   * name counts as one of its songs, and a song found is pushed onto the
   * recently-played stack.
   */
  method PlayAsWritten(start: Node, song: string, stack: RecentlyPlayed, ghost nodes: seq<Node>)
    returns (found: bool)
    requires Chain(nodes) && nodes != [] && nodes[0] == start && stack.Valid()
    modifies stack
    ensures found <==> song in Songs(nodes)
    ensures stack.Valid()
    ensures stack.Contents() == if found then Pushed(old(stack.Contents()), song) else old(stack.Contents())
  {
    found := Search(start, song, nodes);
    if found {
      stack.Push(song);
    }
  }

  /**
   * `play` corrected: looks the song up among the playlist's songs only and,
   * only when it is there, pushes it onto the recently-played stack.
   */
  method Play(start: Node, song: string, stack: RecentlyPlayed, ghost nodes: seq<Node>) returns (found: bool)
    requires Chain(nodes) && nodes != [] && nodes[0] == start && stack.Valid()
    modifies stack
    ensures found <==> song in Songs(nodes)[1..]
    ensures stack.Valid()
    ensures stack.Contents() == if found then Pushed(old(stack.Contents()), song) else old(stack.Contents())
  {
    found := SearchSongs(start, song, nodes);
    if found {
      stack.Push(song);
    }
  }

  /**
   * In a playlist named "Mix" with no songs, `play` as written finds the song
   * "Mix" and puts it on the recently-played stack; the corrected `play` finds
   * nothing and leaves the stack empty.
   */
  method HeaderSearchExample() returns (asWritten: bool, recentAsWritten: seq<string>,
                                        corrected: bool, recentCorrected: seq<string>)
    ensures asWritten && recentAsWritten == ["Mix"]
    ensures !corrected && recentCorrected == []
  {
    var start := new Node("Mix");
    var stack := new RecentlyPlayed();
    asWritten := PlayAsWritten(start, "Mix", stack, [start]);
    recentAsWritten := stack.Display();
    var other := new RecentlyPlayed();
    corrected := Play(start, "Mix", other, [start]);
    recentCorrected := other.Display();
  }
}
