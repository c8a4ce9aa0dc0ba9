/** Reconstruction of a message's reply thread (`get_message_thread`): a
    pre-order walk of the reply tree into a flat list of records, as intended
    over a reply relation.  Replies are an inductive tree, so every walk is over
    a finite, acyclic structure. */
module MessageThread {

  /** A message together with the replies the ORM enumerates for it, in order. */
  datatype MessageNode = MessageNode(
    id: int,
    senderUsername: string,
    content: string,
    timestamp: int,
    replies: seq<MessageNode>)

  /** The dictionary made for each message: `{id, sender, content, timestamp}`. */
  datatype ThreadEntry = ThreadEntry(id: int, sender: string, content: string, timestamp: int)

  function Entry(m: MessageNode): ThreadEntry
  {
    ThreadEntry(m.id, m.senderUsername, m.content, m.timestamp)
  }

  /** The number of messages in the tree rooted at `m`. */
  function Size(m: MessageNode): nat
    decreases m, 1
  {
    1 + SizeAll(m.replies)
  }

  function SizeAll(rs: seq<MessageNode>): nat
    decreases rs, 0
  {
    if rs == [] then 0 else SizeAll(rs[..|rs| - 1]) + Size(rs[|rs| - 1])
  }

  /** The thread of `m`: its own entry, then each reply's thread in turn. */
  function Thread(m: MessageNode): (t: seq<ThreadEntry>)
    decreases m, 1
    ensures t != [] && t[0] == Entry(m)
  {
    [Entry(m)] + ThreadAll(m.replies)
  }

  /** The threads of `rs`, one after another. */
  function ThreadAll(rs: seq<MessageNode>): seq<ThreadEntry>
    decreases rs, 0
  {
    if rs == [] then [] else ThreadAll(rs[..|rs| - 1]) + Thread(rs[|rs| - 1])
  }

  /** `get_message_thread`: start the list with the message's own entry and
      extend it with each reply's thread. */
  method GetMessageThread(m: MessageNode) returns (thread: seq<ThreadEntry>)
    decreases m
    ensures thread == Thread(m)
  {
    thread := [Entry(m)];
    var i := 0;
    while i < |m.replies|
      invariant 0 <= i <= |m.replies|
      invariant thread == [Entry(m)] + ThreadAll(m.replies[..i])
    {
      var sub := GetMessageThread(m.replies[i]);
      assert m.replies[..i + 1][..i] == m.replies[..i];
      thread := thread + sub;
      i := i + 1;
    }
    assert m.replies[..i] == m.replies;
  }

  /** A message without replies has a one-entry thread. */
  lemma LeafThread(m: MessageNode)
    requires m.replies == []
    ensures Thread(m) == [Entry(m)]
  {
  }

  /** The thread lists every message of the tree once: its length is the size of
      the tree, one more than the sum of the replies' thread lengths. */
  lemma {:induction false} ThreadLength(m: MessageNode)
    decreases m, 1
    ensures |Thread(m)| == Size(m)
    ensures |Thread(m)| == 1 + |ThreadAll(m.replies)|
  {
    ThreadAllLength(m.replies);
  }

  lemma {:induction false} ThreadAllLength(rs: seq<MessageNode>)
    decreases rs, 0
    ensures |ThreadAll(rs)| == SizeAll(rs)
  {
    if rs != [] {
      ThreadAllLength(rs[..|rs| - 1]);
      ThreadLength(rs[|rs| - 1]);
    }
  }

  /** The replies' threads appear as contiguous blocks in enumeration order:
      the threads of `a + b` are those of `a` followed by those of `b`. */
  lemma {:induction false} ThreadAllConcat(a: seq<MessageNode>, b: seq<MessageNode>)
    decreases b
    ensures ThreadAll(a + b) == ThreadAll(a) + ThreadAll(b)
  {
    if b == [] {
      assert a + b == a;
    } else {
      var init := b[..|b| - 1];
      var last := b[|b| - 1];
      assert (a + b)[..|a + b| - 1] == a + init;
      assert (a + b)[|a + b| - 1] == last;
      ThreadAllConcat(a, init);
      calc {
        ThreadAll(a + b);
        ThreadAll(a + init) + Thread(last);
        ThreadAll(a) + ThreadAll(init) + Thread(last);
        ThreadAll(a) + (ThreadAll(init) + Thread(last));
        ThreadAll(a) + ThreadAll(b);
      }
    }
  }

  /** The threads of the replies before the `k`-th, its own thread, and the
      threads of those after it. */
  lemma {:induction false} ThreadAllSplit(rs: seq<MessageNode>, k: nat)
    requires k < |rs|
    ensures ThreadAll(rs) == ThreadAll(rs[..k]) + Thread(rs[k]) + ThreadAll(rs[k + 1..])
  {
    assert rs == rs[..k + 1] + rs[k + 1..];
    assert rs[..k + 1][..k] == rs[..k];
    ThreadAllConcat(rs[..k + 1], rs[k + 1..]);
  }

  /** Pre-order: the thread of the `k`-th reply starts right after the root
      entry and the threads of the replies before it. */
  lemma {:induction false} ReplyBlock(m: MessageNode, k: nat)
    requires k < |m.replies|
    ensures var offset := 1 + |ThreadAll(m.replies[..k])|;
            var block := Thread(m.replies[k]);
            offset + |block| <= |Thread(m)| && Thread(m)[offset..offset + |block|] == block
  {
    var rs := m.replies;
    ThreadAllSplit(rs, k);
    assert Thread(m) == ([Entry(m)] + ThreadAll(rs[..k])) + Thread(rs[k]) + ThreadAll(rs[k + 1..]);
    BlockOf([Entry(m)] + ThreadAll(rs[..k]), Thread(rs[k]), ThreadAll(rs[k + 1..]));
  }

  /** The middle part of a three-part concatenation. */
  lemma BlockOf(p: seq<ThreadEntry>, q: seq<ThreadEntry>, r: seq<ThreadEntry>)
    ensures (p + q + r)[|p|..|p| + |q|] == q
  {
  }

  /** The messages of the tree rooted at `m`: the root and all its descendants. */
  function Members(m: MessageNode): set<MessageNode>
    decreases m, 1
  {
    {m} + MembersAll(m.replies)
  }

  function MembersAll(rs: seq<MessageNode>): set<MessageNode>
    decreases rs, 0
  {
    if rs == [] then {} else MembersAll(rs[..|rs| - 1]) + Members(rs[|rs| - 1])
  }

  /** Every entry of the thread is the root's or a descendant's, and every one of
      them has an entry. */
  lemma {:induction false} ThreadCoversMembers(m: MessageNode)
    decreases m, 1
    ensures forall e :: e in Thread(m) <==> exists d :: d in Members(m) && Entry(d) == e
  {
    ThreadAllCoversMembers(m.replies);
  }

  lemma {:induction false} ThreadAllCoversMembers(rs: seq<MessageNode>)
    decreases rs, 0
    ensures forall e :: e in ThreadAll(rs) <==> exists d :: d in MembersAll(rs) && Entry(d) == e
  {
    if rs != [] {
      ThreadAllCoversMembers(rs[..|rs| - 1]);
      ThreadCoversMembers(rs[|rs| - 1]);
    }
  }

  /** The ids of the tree rooted at `m`. */
  function Ids(m: MessageNode): set<int>
    decreases m, 1
  {
    {m.id} + IdsAll(m.replies)
  }

  function IdsAll(rs: seq<MessageNode>): set<int>
    decreases rs, 0
  {
    if rs == [] then {} else IdsAll(rs[..|rs| - 1]) + Ids(rs[|rs| - 1])
  }

  /** Ids unique in the tree: the root's id is not below it, and the subtrees of
      distinct replies share no id. */
  predicate UniqueIds(m: MessageNode)
    decreases m, 1
  {
    m.id !in IdsAll(m.replies) && UniqueIdsAll(m.replies)
  }

  predicate UniqueIdsAll(rs: seq<MessageNode>)
    decreases rs, 0
  {
    rs == [] ||
    (UniqueIdsAll(rs[..|rs| - 1]) && UniqueIds(rs[|rs| - 1])
     && IdsAll(rs[..|rs| - 1]) !! Ids(rs[|rs| - 1]))
  }

  /** No two entries share an id. */
  predicate DistinctEntries(t: seq<ThreadEntry>)
  {
    forall i, j | 0 <= i < j < |t| :: t[i].id != t[j].id
  }

  /** In a tree with unique ids each message appears exactly once: the thread's
      ids are exactly the tree's ids, without repetition. */
  lemma {:induction false} ThreadOncePerMessage(m: MessageNode)
    requires UniqueIds(m)
    decreases m, 1
    ensures DistinctEntries(Thread(m))
    ensures (set e | e in Thread(m) :: e.id) == Ids(m)
  {
    ThreadAllOncePerMessage(m.replies);
    var rest := ThreadAll(m.replies);
    var t := Thread(m);
    forall i, j | 0 <= i < j < |t| ensures t[i].id != t[j].id {
      assert t[j] == rest[j - 1];
      if i > 0 {
        assert t[i] == rest[i - 1];
      } else {
        assert rest[j - 1] in rest;
      }
    }
    assert t == [Entry(m)] + rest;
  }

  lemma {:induction false} ThreadAllOncePerMessage(rs: seq<MessageNode>)
    requires UniqueIdsAll(rs)
    decreases rs, 0
    ensures DistinctEntries(ThreadAll(rs))
    ensures (set e | e in ThreadAll(rs) :: e.id) == IdsAll(rs)
  {
    if rs != [] {
      var init := rs[..|rs| - 1];
      var last := rs[|rs| - 1];
      ThreadAllOncePerMessage(init);
      ThreadOncePerMessage(last);
      var a := ThreadAll(init);
      var b := Thread(last);
      var t := a + b;
      forall i, j | 0 <= i < j < |t| ensures t[i].id != t[j].id {
        if j < |a| {
          assert t[i] == a[i] && t[j] == a[j];
          assert a[i].id != a[j].id;
        } else if i >= |a| {
          assert t[i] == b[i - |a|] && t[j] == b[j - |a|];
          assert b[i - |a|].id != b[j - |a|].id;
        } else {
          assert t[i] == a[i] && t[j] == b[j - |a|];
          assert a[i] in a && b[j - |a|] in b;
          assert a[i].id in (set e | e in a :: e.id);
          assert b[j - |a|].id in (set e | e in b :: e.id);
          assert IdsAll(init) !! Ids(last);
          assert a[i].id in IdsAll(init);
          assert b[j - |a|].id in Ids(last);
        }
      }
      assert (set e | e in t :: e.id) == (set e | e in a :: e.id) + (set e | e in b :: e.id);
    }
  }
}
