/** bio.c: what bget and brelse do to the buffers and to the recency list. */
module BufferCache {
  import opened Disk

  const NBUF: nat := 30

  datatype Key = Key(dev: nat, blockno: nat)

  datatype Buf = Buf(key: Key, valid: bool, refcnt: nat, data: Block)

  /** The buffers, and their numbers from the most to the least recently released. */
  datatype Cache = Cache(bufs: seq<Buf>, order: seq<nat>)

  ghost predicate IsPermutation(order: seq<nat>) {
    && |order| == NBUF
    && (forall i :: 0 <= i < |order| ==> order[i] < NBUF)
    && (forall i, j :: 0 <= i < j < |order| ==> order[i] != order[j])
    && (forall b :: 0 <= b < NBUF ==> b in order)
  }

  // Every buffer is on the list, once.
  ghost predicate Listed(c: Cache) { |c.bufs| == NBUF && IsPermutation(c.order) }

  // The first place in the list, from i on, of a buffer that holds the block.
  ghost function Find(c: Cache, key: Key, i: nat): (k: nat)
    requires Listed(c) && i <= NBUF
    ensures i <= k <= NBUF && (k < NBUF ==> c.bufs[c.order[k]].key == key)
    ensures forall j :: i <= j < k ==> c.bufs[c.order[j]].key != key
    decreases NBUF - i
  {
    if i == NBUF || c.bufs[c.order[i]].key == key then i else Find(c, key, i + 1)
  }

  // One past the last place, before i, of a buffer that is not in use; 0 if there is none.
  ghost function Victim(c: Cache, i: nat): (k: nat)
    requires Listed(c) && i <= NBUF
    ensures k <= i && (k > 0 ==> c.bufs[c.order[k - 1]].refcnt == 0)
    ensures forall j :: k <= j < i ==> c.bufs[c.order[j]].refcnt > 0
  {
    if i == 0 || c.bufs[c.order[i - 1]].refcnt == 0 then i else Victim(c, i - 1)
  }

  datatype Got = Got(cache: Cache, b: nat) | NoBuffers

  // bget under bcache.lock.
  ghost function Bget(c: Cache, key: Key): Got
    requires Listed(c)
  {
    var k := Find(c, key, 0);
    if k < NBUF then
      var b := c.order[k];
      Got(c.(bufs := c.bufs[b := c.bufs[b].(refcnt := c.bufs[b].refcnt + 1)]), b)
    else
      var v := Victim(c, NBUF);
      if v == 0 then NoBuffers
      else
        var b := c.order[v - 1];
        Got(c.(bufs := c.bufs[b := Buf(key, false, 1, c.bufs[b].data)]), b)
  }

  /** The buffer bget returns is the one that holds the block; or, when none does, one that is not
      in use, and nothing else changes. */
  lemma BgetPicks(c: Cache, key: Key)
    requires Listed(c) && Bget(c, key).Got?
    ensures var g := Bget(c, key);
            && g.b < NBUF && g.cache == c.(bufs := c.bufs[g.b := g.cache.bufs[g.b]])
            && (c.bufs[g.b].key == key ==> g.cache.bufs[g.b] == c.bufs[g.b].(refcnt := c.bufs[g.b].refcnt + 1))
            && (c.bufs[g.b].key != key ==>
                  && (forall b :: 0 <= b < NBUF ==> c.bufs[b].key != key)
                  && c.bufs[g.b].refcnt == 0
                  && g.cache.bufs[g.b] == Buf(key, false, 1, c.bufs[g.b].data))
  {
    var k := Find(c, key, 0);
    if k == NBUF {
      forall b | 0 <= b < NBUF ensures c.bufs[b].key != key {
        assert b in c.order;
        var i :| 0 <= i < |c.order| && c.order[i] == b;
      }
    }
  }

  // The list after buffer b has been moved to its head.
  ghost function Front(order: seq<nat>, b: nat): seq<nat>
    requires b in order
  {
    var i :| 0 <= i < |order| && order[i] == b;
    [b] + order[..i] + order[i + 1..]
  }

  lemma FrontAt(order: seq<nat>, i: nat)
    requires i < |order| && forall j, k :: 0 <= j < k < |order| ==> order[j] != order[k]
    ensures Front(order, order[i]) == [order[i]] + order[..i] + order[i + 1..]
  {
  }

  // brelse under bcache.lock.
  ghost function Brelse(c: Cache, b: nat): Cache
    requires Listed(c) && b < NBUF && c.bufs[b].refcnt > 0
  {
    var n := c.bufs[b].refcnt - 1;
    Cache(c.bufs[b := c.bufs[b].(refcnt := n)], if n == 0 then Front(c.order, b) else c.order)
  }

  // Where the buffers are after the move.
  lemma FrontMoves(order: seq<nat>, b: nat, i: nat)
    requires IsPermutation(order) && i < NBUF && order[i] == b
    ensures var f := Front(order, b);
            && |f| == NBUF && f[0] == b
            && (forall j :: 0 <= j < NBUF ==> f[j] == if j == 0 then b else if j <= i then order[j - 1] else order[j])
            && (forall x :: 0 <= x < NBUF ==> x in f)
  {
    FrontAt(order, i);
    var f := Front(order, b);
    forall x | 0 <= x < NBUF ensures x in f {
      assert x in order;
      var k :| 0 <= k < |order| && order[k] == x;
      assert f[if k == i then 0 else if k < i then k + 1 else k] == x;
    }
  }

  lemma FrontPermutes(order: seq<nat>, b: nat)
    requires IsPermutation(order) && b < NBUF
    ensures IsPermutation(Front(order, b))
  {
    assert b in order;
    var i :| 0 <= i < |order| && order[i] == b;
    FrontMoves(order, b, i);
    var f := Front(order, b);
    hide Front;
    forall j, k | 0 <= j < k < NBUF ensures f[j] != f[k] {
      assert f[k] == if k <= i then order[k - 1] else order[k];
    }
  }

  /** The list stays a permutation of all buffers. */
  lemma BrelseListed(c: Cache, b: nat)
    requires Listed(c) && b < NBUF && c.bufs[b].refcnt > 0
    ensures Listed(Brelse(c, b))
  {
    FrontPermutes(c.order, b);
  }
}
