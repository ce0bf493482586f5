/** The blocks a net is connected to, as the shared set changed by a thread-local one: words of bits that
    are combined by exclusive or. */
module DeltaConnectivity {

  const BITS_PER_BLOCK: nat := 64

  /** A word of a bitset, as the set of its one bits. */
  type Word = set<nat>

  function Xor<T(==)>(a: set<T>, b: set<T>): set<T> {
    (a - b) + (b - a)
  }

  ghost predicate WordsOk(words: seq<Word>) {
    forall w, b :: 0 <= w < |words| && b in words[w] ==> b < BITS_PER_BLOCK
  }

  predicate IsSet(words: seq<Word>, p: nat) {
    p / BITS_PER_BLOCK < |words| && p % BITS_PER_BLOCK in words[p / BITS_PER_BLOCK]
  }

  /** The blocks that a bitset contains. */
  ghost function Blocks(words: seq<Word>): set<nat> {
    set p: nat | p < |words| * BITS_PER_BLOCK && IsSet(words, p)
  }

  function Words(k: nat): nat {
    k / BITS_PER_BLOCK + (if k % BITS_PER_BLOCK != 0 then 1 else 0)
  }

  function NoWords(n: nat): (r: seq<Word>)
    ensures |r| == n && forall w :: 0 <= w < n ==> r[w] == {}
  {
    seq(n, w => {})
  }

  /** Word by word the exclusive-or of both sets. */
  ghost predicate WordsXored(a: seq<Word>, b: seq<Word>, r: seq<Word>) {
    |a| == |b| == |r| && forall w :: 0 <= w < |r| ==> r[w] == Xor(a[w], b[w])
  }

  lemma XoredBlocks(a: seq<Word>, b: seq<Word>, r: seq<Word>)
    requires WordsXored(a, b, r)
    ensures Blocks(r) == Xor(Blocks(a), Blocks(b))
  {
    forall p: nat ensures p in Blocks(r) <==> p in Xor(Blocks(a), Blocks(b)) {
    }
  }

  // ---------- Counting ----------

  /** The blocks of the last word. */
  ghost function LastBlocks(words: seq<Word>): set<nat>
    requires words != []
  {
    set p: nat | (|words| - 1) * BITS_PER_BLOCK <= p < |words| * BITS_PER_BLOCK && IsSet(words, p)
  }

  lemma BlocksSplit(words: seq<Word>)
    requires words != []
    ensures Blocks(words) == Blocks(words[..|words| - 1]) + LastBlocks(words)
    ensures Blocks(words[..|words| - 1]) !! LastBlocks(words)
  {
  }

  lemma BlocksOfLast(words: seq<Word>)
    requires words != [] && WordsOk(words)
    ensures WordsOk(words[..|words| - 1])
    ensures |Blocks(words)| == |Blocks(words[..|words| - 1])| + |words[|words| - 1]|
  {
    BlocksSplit(words);
    var offset := (|words| - 1) * BITS_PER_BLOCK;
    var blocks, word := LastBlocks(words), words[|words| - 1];
    forall y: nat ensures Matches(blocks, word, offset, y) {}
    ShiftedSize(blocks, word, offset);
  }

  ghost predicate Matches(a: set<nat>, b: set<nat>, offset: nat, y: nat) {
    y + offset in a <==> y in b
  }

  lemma {:induction false} ShiftedSize(a: set<nat>, b: set<nat>, offset: nat)
    requires forall x :: x in a ==> x >= offset
    requires forall y: nat {:trigger Matches(a, b, offset, y)} :: Matches(a, b, offset, y)
    ensures |a| == |b|
    decreases |b|
  {
    forall x: nat | x in a ensures x - offset in b {
      assert Matches(a, b, offset, x - offset);
    }
    if b == {} {
      assert a == {};
    } else {
      var y :| y in b;
      var a', b' := a - {y + offset}, b - {y};
      assert Matches(a, b, offset, y);
      forall z: nat ensures Matches(a', b', offset, z) {
        assert Matches(a, b, offset, z);
      }
      ShiftedSize(a', b', offset);
    }
  }

  // ---------- Looking for the next block ----------

  predicate NoneFrom(word: Word, s: nat) {
    forall b :: b in word ==> b < s
  }

  /** The lowest one bit from s on. */
  function Lowest(word: Word, s: nat): (r: nat)
    requires s <= BITS_PER_BLOCK && !NoneFrom(word, s) && forall b :: b in word ==> b < BITS_PER_BLOCK
    ensures s <= r < BITS_PER_BLOCK && r in word && forall b :: s <= b < r ==> b !in word
    decreases BITS_PER_BLOCK - s
  {
    if s in word then s else Lowest(word, s + 1)
  }

  class DeltaConnectivitySet {
    const k: nat
    const numWords: nat
    var touched: map<nat, nat>
    var delta: seq<Word>

    constructor (k: nat)
      ensures Valid() && this.k == k && touched == map[]
    {
      this.k, numWords, touched, delta := k, Words(k), map[], [];
    }

    /** Every touched net has words of its own. */
    ghost predicate Valid()
      reads this
    {
      && numWords == Words(k) && WordsOk(delta)
      && (forall e: nat {:trigger SlotOk(e)} :: e in touched ==> SlotOk(e))
      && (forall e: nat, f: nat {:trigger Apart(e, f)} :: e in touched && f in touched && e != f ==> Apart(e, f))
    }

    ghost predicate SlotOk(e: nat)
      reads this
      requires e in touched
    {
      touched[e] + numWords <= |delta|
    }

    ghost predicate Apart(e: nat, f: nat)
      reads this
      requires e in touched && f in touched
    {
      touched[e] + numWords <= touched[f] || touched[f] + numWords <= touched[e]
    }

    ghost function WordsOf(e: nat): (r: seq<Word>)
      reads this
      requires Valid()
      ensures |r| == numWords && WordsOk(r)
    {
      assert e in touched ==> SlotOk(e);
      if e in touched then delta[touched[e]..touched[e] + numWords] else NoWords(numWords)
    }

    /** The blocks in which net e differs from the shared set. */
    ghost function Toggled(e: nat): set<nat>
      reads this
      requires Valid()
    {
      Blocks(WordsOf(e))
    }

    method Toggle(e: nat, p: nat)
      requires Valid() && p < k
      modifies this
      ensures Valid() && Toggled(e) == old(Xor(Toggled(e), {p}))
      ensures forall f: nat :: f != e ==> Toggled(f) == old(Toggled(f))
    {
      Touch(e);
      ghost var before := WordsOf(e);
      hide Blocks, Xor;
      ToggleWord(e, p / BITS_PER_BLOCK, p % BITS_PER_BLOCK);
      ToggledWord(before, WordsOf(e), p);
    }

    /** Toggles one bit in the words of net e. */
    method ToggleWord(e: nat, w: nat, b: nat)
      requires Valid() && e in touched && w < numWords && b < BITS_PER_BLOCK
      modifies `delta
      ensures Valid() && WordsOf(e) == old(WordsOf(e)[w := Xor(WordsOf(e)[w], {b})])
      ensures forall f: nat :: f != e ==> WordsOf(f) == old(WordsOf(f))
    {
      assert SlotOk(e);
      delta := delta[touched[e] + w := Xor(delta[touched[e] + w], {b})];
      forall f: nat | f in touched ensures SlotOk(f) {
        assert old(SlotOk(f));
      }
      forall f: nat, g: nat | f in touched && g in touched && f != g ensures Apart(f, g) {
        assert old(Apart(f, g));
      }
      hide Xor;
      forall f: nat | f != e ensures WordsOf(f) == old(WordsOf(f)) {
        if f in touched {
          assert SlotOk(f) && Apart(e, f);
        }
      }
    }

    /** Gives net e words of its own if it has none. */
    method Touch(e: nat)
      requires Valid()
      modifies this
      ensures Valid() && e in touched
      ensures forall f: nat :: WordsOf(f) == old(WordsOf(f))
    {
      if e !in touched {
        ghost var delta0 := delta;
        touched := touched[e := |delta|];
        delta := delta + NoWords(numWords);
        forall f: nat | f in touched ensures SlotOk(f) {
          assert f != e ==> old(SlotOk(f));
        }
        forall f: nat, g: nat | f in touched && g in touched && f != g ensures Apart(f, g) {
          assert f != e ==> old(SlotOk(f));
          assert g != e ==> old(SlotOk(g));
          assert f != e && g != e ==> old(Apart(f, g));
        }
        forall f: nat ensures WordsOf(f) == old(WordsOf(f)) {
          if f in touched && f != e { assert old(SlotOk(f)) && SlotOk(f); }
        }
      }
    }

    method Contains(e: nat, p: nat, shared: seq<Word>) returns (b: bool)
      requires Valid() && p < k && |shared| == numWords
      ensures b <==> p in Xor(Blocks(shared), Toggled(e))
    {
      var isSet := false;
      if e in touched {
        assert SlotOk(e);
        isSet := p % BITS_PER_BLOCK in delta[touched[e] + p / BITS_PER_BLOCK];
      }
      assert IsSet(WordsOf(e), p) == isSet;
      b := IsSet(shared, p) != isSet;
    }

    /** The set of net e as the thread sees it. */
    method DeepCopy(e: nat, shared: seq<Word>) returns (words: seq<Word>)
      requires Valid() && |shared| == numWords && WordsOk(shared)
      ensures |words| == numWords && WordsOk(words) && Blocks(words) == Xor(Blocks(shared), Toggled(e))
    {
      var own := NoWords(numWords);
      if e in touched {
        assert SlotOk(e);
        own := delta[touched[e]..touched[e] + numWords];
      }
      words := seq(numWords, w requires 0 <= w < numWords => Xor(shared[w], own[w]));
      XoredBlocks(shared, own, words);
    }

    /** The number of blocks of net e. */
    method Connectivity(e: nat, shared: seq<Word>) returns (n: nat)
      requires Valid() && |shared| == numWords && WordsOk(shared)
      ensures n == |Xor(Blocks(shared), Toggled(e))|
    {
      var words := DeepCopy(e, shared);
      n := 0;
      for i := 0 to numWords
        invariant WordsOk(words[..i]) && n == |Blocks(words[..i])|
      {
        assert words[..i + 1][..i] == words[..i];
        BlocksOfLast(words[..i + 1]);
        n := n + |words[i]|;
      }
      assert words[..numWords] == words;
    }

    /** The next block of a net after the given one, or the end. */
    method NextBlock(current: int, words: seq<Word>) returns (next: nat)
      requires -1 <= current < |words| * BITS_PER_BLOCK && WordsOk(words)
      ensures current < next <= |words| * BITS_PER_BLOCK
      ensures next < |words| * BITS_PER_BLOCK ==> next in Blocks(words)
      ensures forall p: nat :: current < p < next ==> p !in Blocks(words)
    {
      var max := |words| * BITS_PER_BLOCK;
      next := current + 1;
      while next < max && NoneFrom(words[next / BITS_PER_BLOCK], next % BITS_PER_BLOCK)
        invariant current < next <= max && forall p: nat :: current < p < next ==> p !in Blocks(words)
        decreases max - next
      {
        ghost var before := next;
        next := next + (BITS_PER_BLOCK - next % BITS_PER_BLOCK);
        forall p: nat | before <= p < next ensures p !in Blocks(words) {
          assert p / BITS_PER_BLOCK == before / BITS_PER_BLOCK && p % BITS_PER_BLOCK >= before % BITS_PER_BLOCK;
        }
      }
      if next < max {
        ghost var before := next;
        next := next / BITS_PER_BLOCK * BITS_PER_BLOCK + Lowest(words[next / BITS_PER_BLOCK], next % BITS_PER_BLOCK);
        forall p: nat | before <= p < next ensures p !in Blocks(words) {
          assert p / BITS_PER_BLOCK == before / BITS_PER_BLOCK && before % BITS_PER_BLOCK <= p % BITS_PER_BLOCK;
        }
      }
    }

    /** Enumerates the blocks of net e in ascending order. */
    method ConnectivitySet(e: nat, shared: seq<Word>) returns (blocks: seq<nat>)
      requires Valid() && |shared| == numWords && WordsOk(shared)
      ensures forall i, j :: 0 <= i < j < |blocks| ==> blocks[i] < blocks[j]
      ensures forall p: nat :: p in blocks <==> p in Xor(Blocks(shared), Toggled(e))
    {
      var words := DeepCopy(e, shared);
      var max := numWords * BITS_PER_BLOCK;
      blocks := [];
      if max > 0 {
        var current := NextBlock(-1, words);
        while current < max
          invariant 0 <= current <= max && (current < max ==> current in Blocks(words))
          invariant forall i, j :: 0 <= i < j < |blocks| ==> blocks[i] < blocks[j]
          invariant forall i :: 0 <= i < |blocks| ==> blocks[i] < current
          invariant forall p: nat :: p in blocks <==> p in Blocks(words) && p < current
          decreases max - current
        {
          blocks := blocks + [current];
          current := NextBlock(current, words);
        }
      }
    }

    method Reset()
      requires Valid()
      modifies this
      ensures Valid() && forall e: nat :: Toggled(e) == {}
    {
      touched, delta := map[], [];
    }
  }

  lemma ToggledWord(before: seq<Word>, after: seq<Word>, p: nat)
    requires p / BITS_PER_BLOCK < |before|
    requires after == before[p / BITS_PER_BLOCK := Xor(before[p / BITS_PER_BLOCK], {p % BITS_PER_BLOCK})]
    ensures Blocks(after) == Xor(Blocks(before), {p})
  {
    forall q: nat ensures q in Blocks(after) <==> q in Xor(Blocks(before), {p}) {
      if q / BITS_PER_BLOCK == p / BITS_PER_BLOCK && q % BITS_PER_BLOCK == p % BITS_PER_BLOCK {
        assert q == p;
      }
    }
  }
}
