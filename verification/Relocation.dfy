/** The in-place relocation of migrations/txs_begin_end.go: every block's transactions move up
    inside one table to make room for two system transactions per block. One uninterrupted run. */
module Relocation {
  import opened Basics

  const HALF_WORD: nat := 0x1_0000_0000

  /** A stored transaction, as the table holds it. */
  type Txn = nat
  type Table = map<nat, Txn>

  datatype BodyKey = BodyKey(number: nat, hash: nat)
  datatype Body = Body(baseTxId: nat, txAmount: nat)

  /** The hash read for a number that has no canonical header. */
  const NO_HASH: nat := 0

  // ---------------------------------------------------------------------- layout

  /** First slot of block `k` when the blocks lie one behind the other from `start`. */
  ghost function Base(start: nat, blocks: seq<seq<Txn>>, k: nat): nat
    requires k <= |blocks|
  {
    if k == 0 then start else Base(start, blocks, k - 1) + |blocks[k - 1]|
  }

  /** First slot of block `k` after the move: a system slot. */
  ghost function NewBase(start: nat, blocks: seq<seq<Txn>>, k: nat): nat
    requires k <= |blocks|
  {
    Base(start, blocks, k) + 2 * k
  }

  lemma {:induction false} BaseMonotone(start: nat, blocks: seq<seq<Txn>>, j: nat, k: nat)
    requires j <= k <= |blocks|
    ensures Base(start, blocks, j) <= Base(start, blocks, k)
    decreases k - j
  {
    if j < k { BaseMonotone(start, blocks, j, k - 1); }
  }

  /** The slots from `lo` on hold `txs`, in order. */
  ghost predicate Holds(t: Table, lo: nat, txs: seq<Txn>) {
    forall s | lo <= s < lo + |txs| :: s in t && t[s] == txs[s - lo]
  }

  /** Block `k` is where it was. */
  ghost predicate OldPlace(t: Table, start: nat, blocks: seq<seq<Txn>>, k: nat)
    requires k < |blocks|
  {
    Holds(t, Base(start, blocks, k), blocks[k])
  }

  /** Block `k` has been moved: its transactions in order between two empty slots. */
  ghost predicate NewPlace(t: Table, start: nat, blocks: seq<seq<Txn>>, k: nat)
    requires k < |blocks|
  {
    var base := NewBase(start, blocks, k);
    base !in t && Holds(t, base + 1, blocks[k]) && base + 1 + |blocks[k]| !in t
  }

  // --------------------------------------------------------------- table accesses

  lemma {:induction false} Least(ks: set<nat>) returns (m: nat)
    requires ks != {}
    ensures m in ks && forall j | j in ks :: m <= j
    decreases ks
  {
    var k :| k in ks;
    var below := set j | j in ks && j < k;
    if below == {} {
      m := k;
      forall j | j in ks ensures m <= j { assert j !in below; }
    } else {
      assert k !in below && below < ks;
      m := Least(below);
      forall j | j in ks ensures m <= j { assert j in below || k <= j; }
    }
  }

  /** `ids` are the keys from `from` to before `end`, in ascending order. */
  ghost predicate KeysWithin(t: Table, from: nat, end: nat, ids: seq<nat>) {
    && (forall i, j :: 0 <= i < j < |ids| ==> ids[i] < ids[j])
    && (forall k :: k in ids <==> k in t && from <= k < end)
  }

  lemma NextKey(t: Table, from: nat, end: nat, ids: seq<nat>, k: nat)
    requires KeysWithin(t, from, end, ids) && k in t && from <= end <= k
    requires forall j | j in t && j >= end :: k <= j
    ensures KeysWithin(t, from, k + 1, ids + [k])
  {
    assert forall j | 0 <= j < |ids| :: ids[j] in ids;
  }

  /** The cursor's next entry: the least key at or after `next`. */
  method SeekKey(t: Table, next: nat) returns (k: Option<nat>)
    ensures k.None? ==> forall j | j in t :: j < next
    ensures k.Some? ==> k.value in t && next <= k.value && forall j | j in t && j >= next :: k.value <= j
  {
    var keys := set j | j in t && j >= next;
    assert forall j | j in t && j >= next :: j in keys;
    if keys == {} { return None; }
    ghost var least := Least(keys);
    var m :| m in keys && forall j | j in keys :: m <= j;
    return Some(m);
  }

  /** `CanonicalTransactions`: up to `amount` entries at or after `from`, in ascending order, over gaps too. */
  method CanonicalTransactions(t: Table, from: nat, amount: nat)
    returns (txs: seq<Txn>, ghost ids: seq<nat>, ghost end: nat)
    ensures |txs| == |ids| <= amount && forall j :: 0 <= j < |ids| ==> ids[j] in t && txs[j] == t[ids[j]]
    ensures KeysWithin(t, from, end, ids)
    ensures |txs| < amount ==> forall k | k in t :: k < end
    ensures (forall s | from <= s < from + amount :: s in t) ==> |txs| == amount && Holds(t, from, txs)
  {
    hide KeysWithin;
    txs, ids, end := [], [], from;
    var next := from;
    NoKeys(t, from);
    ghost var dense := forall s | from <= s < from + amount :: s in t;
    while |txs| < amount
      invariant |txs| == |ids| <= amount && end == next && from <= next
      invariant forall j :: 0 <= j < |ids| ==> ids[j] in t && txs[j] == t[ids[j]]
      invariant KeysWithin(t, from, next, ids)
      invariant dense ==> next == from + |txs| && Holds(t, from, txs)
    {
      var k := SeekKey(t, next);
      assert dense ==> next in t;
      if k.None? { return; }
      NextKey(t, from, next, ids, k.value);
      txs, ids := txs + [t[k.value]], ids + [k.value];
      next := k.value + 1;
      end := next;
    }
  }

  lemma NoKeys(t: Table, from: nat)
    ensures KeysWithin(t, from, from, [])
  {
  }

  /** `writeTransactionsNewDeprecated`. */
  method WriteTransactions(t: Table, txs: seq<Txn>, from: nat) returns (u: Table)
    requires from + |txs| < WORD
    ensures forall k :: k in u <==> k in t || from <= k < from + |txs|
    ensures Holds(u, from, txs)
    ensures forall k | k in t && !(from <= k < from + |txs|) :: u[k] == t[k]
  {
    u := t;
    var txId := from;
    var i := 0;
    while i < |txs|
      invariant 0 <= i <= |txs| && txId == from + i
      invariant forall k :: k in u <==> k in t || from <= k < from + i
      invariant Holds(u, from, txs[..i])
      invariant forall k | k in t && !(from <= k < from + i) :: u[k] == t[k]
    {
      u := u[txId := txs[i]];
      txId := (txId + 1) % WORD;
      i := i + 1;
    }
  }

  // ------------------------------------------------------------------- one block

  /** Slots at or above `NewBase(i)` are settled; below `Base(i)` nothing has been touched. What lies
      between them are leftovers that the blocks still to come will overwrite. */
  ghost predicate Between(t: Table, start: nat, blocks: seq<seq<Txn>>, i: nat)
    requires i <= |blocks|
  {
    && (forall k | 0 <= k < i :: OldPlace(t, start, blocks, k))
    && (forall k | i <= k < |blocks| :: NewPlace(t, start, blocks, k))
    && (forall s | s in t :: start <= s < NewBase(start, blocks, |blocks|))
  }

  /** The rewriting of one block: delete the first slot, write the transactions, delete the last slot. */
  method MoveBlock(t: Table, i: nat, b: Body, ghost start: nat, ghost blocks: seq<seq<Txn>>)
    returns (u: Table, b': Body)
    requires i < |blocks| && Between(t, start, blocks, i + 1)
    requires NewBase(start, blocks, |blocks|) < WORD && |blocks[i]| + 2 < HALF_WORD
    requires b == Body(Base(start, blocks, i), |blocks[i]|)
    ensures Between(u, start, blocks, i)
    ensures b' == Body(NewBase(start, blocks, i), |blocks[i]| + 2)
    // nothing of a block not yet moved is overwritten or deleted
    ensures forall s | s in t && s < Base(start, blocks, i) :: s in u && u[s] == t[s]
  {
    hide Base, NewPlace;
    ghost var n := |blocks|;
    assert OldPlace(t, start, blocks, i);
    hide OldPlace;
    var txs := TransactionsOf(t, b, blocks[i]);
    BaseMonotone(start, blocks, i, n);
    BaseStep(start, blocks, i);
    BaseMonotone(start, blocks, i + 1, n);
    b' := Body((b.baseTxId + i * 2) % WORD, (b.txAmount + 2) % HALF_WORD);
    assert b' == Body(NewBase(start, blocks, i), |blocks[i]| + 2);
    u := Rewrite(t, txs, b'.baseTxId, b'.txAmount);
    MovedBlock(t, u, start, blocks, i);
  }

  method TransactionsOf(t: Table, b: Body, ghost block: seq<Txn>) returns (txs: seq<Txn>)
    requires Holds(t, b.baseTxId, block) && b.txAmount == |block|
    ensures txs == block
  {
    hide KeysWithin;
    ghost var ids, end;
    txs, ids, end := CanonicalTransactions(t, b.baseTxId, b.txAmount);
    SameTxs(t, b.baseTxId, txs, block);
  }

  /** Empties the first slot, writes the transactions behind it, empties the last slot. */
  method Rewrite(t: Table, txs: seq<Txn>, base: nat, amount: nat) returns (u: Table)
    requires amount == |txs| + 2 && base + amount <= WORD
    ensures forall s :: s in u <==> base < s <= base + |txs| || (s in t && !(base <= s <= base + |txs| + 1))
    ensures Holds(u, base + 1, txs)
    ensures forall s | s in t && !(base <= s <= base + |txs| + 1) :: u[s] == t[s]
  {
    u := t - {base};
    u := WriteTransactions(u, txs, base + 1);
    u := u - {base + amount - 1};
  }

  lemma SameTxs(t: Table, lo: nat, a: seq<Txn>, b: seq<Txn>)
    requires |a| == |b| && Holds(t, lo, a) && Holds(t, lo, b)
    ensures a == b
  {
    forall j | 0 <= j < |a| ensures a[j] == b[j] { assert lo + j in t; }
  }

  lemma BaseStep(start: nat, blocks: seq<seq<Txn>>, i: nat)
    requires i < |blocks|
    ensures Base(start, blocks, i + 1) == Base(start, blocks, i) + |blocks[i]|
    ensures NewBase(start, blocks, i + 1) == NewBase(start, blocks, i) + |blocks[i]| + 2
  {
  }

  /** After the rewriting of block `i`: its new place holds, the others are undisturbed. */
  lemma MovedBlock(t: Table, u: Table, start: nat, blocks: seq<seq<Txn>>, i: nat)
    requires i < |blocks| && Between(t, start, blocks, i + 1)
    requires var base, m := NewBase(start, blocks, i), |blocks[i]|;
             && (forall s :: s in u <==> base < s <= base + m || (s in t && !(base <= s <= base + m + 1)))
             && Holds(u, base + 1, blocks[i])
             && (forall s | s in t && !(base <= s <= base + m + 1) :: u[s] == t[s])
    ensures Between(u, start, blocks, i)
  {
    hide Base;
    var base, m := NewBase(start, blocks, i), |blocks[i]|;
    BaseStep(start, blocks, i);
    BaseMonotone(start, blocks, i + 1, |blocks|);
    BaseMonotone(start, blocks, 0, i);
    StartBase(start, blocks);
    forall k | 0 <= k < i ensures OldPlace(u, start, blocks, k) {
      assert OldPlace(t, start, blocks, k);
      BaseStep(start, blocks, k);
      BaseMonotone(start, blocks, k + 1, i);
    }
    forall k | i <= k < |blocks| ensures NewPlace(u, start, blocks, k) {
      if k > i {
        assert NewPlace(t, start, blocks, k);
        BaseMonotone(start, blocks, i + 1, k);
      }
    }
  }

  lemma StartBase(start: nat, blocks: seq<seq<Txn>>)
    ensures Base(start, blocks, 0) == start
  {
  }

  // ------------------------------------------------------------------- the whole

  /** The hash of canonical block `k`, or the zero hash. */
  function HashAt(canonical: map<nat, nat>, k: nat): nat { if k in canonical then canonical[k] else NO_HASH }

  function KeyOf(canonical: map<nat, nat>, k: nat): BodyKey { BodyKey(k, HashAt(canonical, k)) }

  /** The canonical bodies describe `blocks`, one behind the other, and there are no others. */
  ghost predicate Described(canonical: map<nat, nat>, bodies: map<BodyKey, Body>, start: nat, blocks: seq<seq<Txn>>) {
    && (forall k | 0 <= k < |blocks| ::
          k in canonical && KeyOf(canonical, k) in bodies
          && bodies[KeyOf(canonical, k)] == Body(Base(start, blocks, k), |blocks[k]|))
    && (forall k | k >= |blocks| :: KeyOf(canonical, k) !in bodies)
  }

  /** The bodies from block `i` on have been rewritten. */
  ghost predicate Rewritten(canonical: map<nat, nat>, bodies: map<BodyKey, Body>, start: nat, blocks: seq<seq<Txn>>,
                            i: nat)
  {
    && (forall k | 0 <= k < |blocks| ::
          k in canonical && KeyOf(canonical, k) in bodies
          && bodies[KeyOf(canonical, k)] == if k < i then Body(Base(start, blocks, k), |blocks[k]|)
                                            else Body(NewBase(start, blocks, k), |blocks[k]| + 2))
    && (forall k | k >= |blocks| :: KeyOf(canonical, k) !in bodies)
  }

  /** The next body down is there exactly if the block is, and is still the old one. */
  lemma BodyThere(canonical: map<nat, nat>, bodies: map<BodyKey, Body>, start: nat, blocks: seq<seq<Txn>>,
                  done: nat, i: nat)
    requires Rewritten(canonical, bodies, start, blocks, done) && done == if i + 1 < |blocks| then i + 1 else |blocks|
    ensures KeyOf(canonical, i) in bodies <==> i < |blocks|
    ensures i < |blocks| ==>
              done == i + 1 && bodies[KeyOf(canonical, i)] == Body(Base(start, blocks, i), |blocks[i]|)
  {
    hide Base;
  }

  lemma RewrittenNext(canonical: map<nat, nat>, bodies: map<BodyKey, Body>, start: nat, blocks: seq<seq<Txn>>, i: nat,
                      b: Body)
    requires i < |blocks| && Rewritten(canonical, bodies, start, blocks, i + 1)
    requires b == Body(NewBase(start, blocks, i), |blocks[i]| + 2)
    ensures Rewritten(canonical, bodies[KeyOf(canonical, i) := b], start, blocks, i)
  {
    hide Base, NewBase;
  }

  /** The sequence after the final adjustment, given the body of the last canonical header if it has one:
      the increment is unsigned, so it may also take away. */
  function NewSequence(current: nat, last: seq<Body>): nat {
    var increment := if last == [] then 0 else (last[0].baseTxId + last[0].txAmount - current) % WORD;
    (current + increment) % WORD
  }

  lemma NewSequenceIsEnd(current: nat, last: seq<Body>)
    requires current < WORD && (last != [] ==> last[0].baseTxId + last[0].txAmount < WORD)
    ensures NewSequence(current, last) == if last == [] then current else last[0].baseTxId + last[0].txAmount
  {
  }

  class Db {
    const canonical: map<nat, nat>
    var bodies: map<BodyKey, Body>
    var ethTx: Table
    var ethSeq: nat

    constructor (canonical: map<nat, nat>, bodies: map<BodyKey, Body>, ethTx: Table, ethSeq: nat)
      ensures this.canonical == canonical && this.bodies == bodies && this.ethTx == ethTx && this.ethSeq == ethSeq
    {
      this.canonical, this.bodies, this.ethTx, this.ethSeq := canonical, bodies, ethTx, ethSeq;
    }

    /** `Up`, from scratch. `bodiesProgress` covers the stored blocks. */
    method Up(bodiesProgress: nat, ghost start: nat, ghost blocks: seq<seq<Txn>>)
      requires Described(canonical, bodies, start, blocks) && |blocks| <= bodiesProgress + 2
      requires forall k | 0 <= k < |blocks| :: OldPlace(ethTx, start, blocks, k)
      requires forall s | s in ethTx :: start <= s < Base(start, blocks, |blocks|)
      requires NewBase(start, blocks, |blocks|) < WORD && ethSeq < WORD
      requires forall k | 0 <= k < |blocks| :: |blocks[k]| + 2 < HALF_WORD
      modifies this
      // every block's transactions, in order, between two empty slots, at old base + 2k + 1
      ensures forall k | 0 <= k < |blocks| :: NewPlace(ethTx, start, blocks, k)
      ensures forall k | 0 <= k < |blocks| ::
                KeyOf(canonical, k) in bodies
                && bodies[KeyOf(canonical, k)] == Body(NewBase(start, blocks, k), |blocks[k]| + 2)
      // nothing outside the new ranges
      ensures forall s | s in ethTx :: start <= s < NewBase(start, blocks, |blocks|)
      // the sequence is at the new end if the last canonical header has a body, and unchanged if not
      ensures forall h | h in canonical && (forall k | k in canonical :: k <= h) ::
                ethSeq == if h == |blocks| - 1 then NewBase(start, blocks, |blocks|) else old(ethSeq)
      // so a sequence that was at the old end gets to the new end exactly when no header is ahead of the bodies
      ensures blocks != [] && old(ethSeq) == Base(start, blocks, |blocks|) ==>
                forall h | h in canonical && (forall k | k in canonical :: k <= h) ::
                  ethSeq == NewBase(start, blocks, |blocks|) <==> h == |blocks| - 1
    {
      hide Base, OldPlace, NewPlace;
      BaseMonotone(start, blocks, 0, |blocks|);
      MoveAll(bodiesProgress, start, blocks);
      AdjustSequence(start, blocks);
    }

    /** The loop over the blocks, from the last to the first. */
    method MoveAll(bodiesProgress: nat, ghost start: nat, ghost blocks: seq<seq<Txn>>)
      requires Rewritten(canonical, bodies, start, blocks, |blocks|) && |blocks| <= bodiesProgress + 2
      requires Between(ethTx, start, blocks, |blocks|) && NewBase(start, blocks, |blocks|) < WORD
      requires forall k | 0 <= k < |blocks| :: |blocks[k]| + 2 < HALF_WORD
      modifies this`bodies, this`ethTx
      ensures Between(ethTx, start, blocks, 0) && Rewritten(canonical, bodies, start, blocks, 0)
    {
      hide Base, NewBase, Between, Rewritten;
      var i := bodiesProgress + 2;
      ghost var done := |blocks|; // blocks from here on have been moved
      while i > 0
        invariant 0 <= i <= bodiesProgress + 2 && done == if i < |blocks| then i else |blocks|
        invariant Between(ethTx, start, blocks, done)
        invariant Rewritten(canonical, bodies, start, blocks, done)
      {
        i := i - 1;
        BodyThere(canonical, bodies, start, blocks, done, i);
        var key := KeyOf(canonical, i);
        if key in bodies {
          var b;
          ethTx, b := MoveBlock(ethTx, i, bodies[key], start, blocks);
          RewrittenNext(canonical, bodies, start, blocks, i, b);
          bodies := bodies[key := b];
          done := i;
        }
      }
    }

    method AdjustSequence(ghost start: nat, ghost blocks: seq<seq<Txn>>)
      requires Rewritten(canonical, bodies, start, blocks, 0)
      requires NewBase(start, blocks, |blocks|) < WORD && ethSeq < WORD
      modifies this`ethSeq
      ensures forall h | h in canonical && (forall k | k in canonical :: k <= h) ::
                ethSeq == if h == |blocks| - 1 then NewBase(start, blocks, |blocks|) else old(ethSeq)
    {
      hide Base, NewSequence;
      var last: seq<Body> := [];
      if canonical != map[] {
        ghost var g := Greatest(canonical.Keys);
        var h :| h in canonical && forall k | k in canonical :: k <= h;
        var key := KeyOf(canonical, h);
        if key in bodies { last := [bodies[key]]; }
        if h < |blocks| {
          BaseStep(start, blocks, h);
          BaseMonotone(start, blocks, h + 1, |blocks|);
        }
      }
      NewSequenceIsEnd(ethSeq, last);
      ethSeq := NewSequence(ethSeq, last);
    }
  }

  /** One block with a body and one header more: the sequence stays at 1 although the block now reaches to 3. */
  method HeadersAhead(txn: Txn) returns (db: Db)
    ensures db.ethSeq == 1 && NewBase(0, [[txn]], 1) == 3
  {
    var canonical, bodies, table := map[0 := 7, 1 := 8], map[BodyKey(0, 7) := Body(0, 1)], map[0 := txn];
    Ahead(txn, canonical, bodies, table);
    hide Base, Described, OldPlace, NewPlace;
    db := new Db(canonical, bodies, table, 1);
    assert 1 in canonical && forall k | k in canonical :: k <= 1;
    db.Up(0, 0, [[txn]]);
  }

  lemma Ahead(txn: Txn, canonical: map<nat, nat>, bodies: map<BodyKey, Body>, table: Table)
    requires canonical == map[0 := 7, 1 := 8] && bodies == map[BodyKey(0, 7) := Body(0, 1)] && table == map[0 := txn]
    ensures Base(0, [[txn]], 0) == 0 && Base(0, [[txn]], 1) == 1
    ensures Described(canonical, bodies, 0, [[txn]]) && OldPlace(table, 0, [[txn]], 0)
  {
  }

  lemma {:induction false} Greatest(ks: set<nat>) returns (m: nat)
    requires ks != {}
    ensures m in ks && forall j | j in ks :: j <= m
    decreases ks
  {
    var k :| k in ks;
    var above := set j | j in ks && j > k;
    if above == {} {
      m := k;
      forall j | j in ks ensures j <= m { assert j !in above; }
    } else {
      assert k !in above && above < ks;
      m := Greatest(above);
      forall j | j in ks ensures j <= m { assert j in above || j <= k; }
    }
  }
}
