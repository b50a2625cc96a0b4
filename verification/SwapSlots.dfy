/** The swap slot bitmap of `mm/swap.rs`: 64-bit words scanned for the lowest
    clear bit, with a count of the slots in use. A word is the sequence of its
    bits, lowest first. */
module SwapSlots {

  const WORD: nat := 64

  type Word = w: seq<bool> | |w| == WORD witness seq(WORD, i => false)

  datatype Option<+T> = None | Some(value: T)

  /** Words needed for `slots` bits (`div_ceil`). */
  function WordsFor(slots: nat): nat
  {
    (slots + WORD - 1) / WORD
  }

  predicate BitSet(words: seq<Word>, i: nat)
  {
    i / WORD < |words| && words[i / WORD][i % WORD]
  }

  /** The slots in use. */
  ghost function InUse(words: seq<Word>): set<nat>
  {
    set i: nat | i < |words| * WORD && BitSet(words, i)
  }

  /** `words` with the bit of slot `i` set to `v`. */
  function WithBit(words: seq<Word>, i: nat, v: bool): seq<Word>
    requires i / WORD < |words|
  {
    words[i / WORD := words[i / WORD][i % WORD := v]]
  }

  lemma SameSlot(i: nat, j: nat)
    requires i / WORD == j / WORD && i % WORD == j % WORD
    ensures i == j
  {
  }

  /** Writing one bit changes the set of used slots by exactly that slot. */
  lemma WithBitInUse(words: seq<Word>, i: nat, v: bool)
    requires i / WORD < |words|
    ensures InUse(WithBit(words, i, v)) == if v then InUse(words) + {i} else InUse(words) - {i}
  {
    var after := WithBit(words, i, v);
    forall j: nat ensures BitSet(after, j) <==> if j == i then v else BitSet(words, j) {
      if j != i && j / WORD == i / WORD {
        if j % WORD == i % WORD {
          SameSlot(i, j);
        }
      }
    }
    InRange(words, i);
  }

  lemma InRange(words: seq<Word>, i: nat)
    requires i / WORD < |words|
    ensures i < |words| * WORD
  {
  }

  class SwapMap {
    const slots: nat
    var words: seq<Word>
    var used: nat

    ghost predicate Valid()
      reads this
    {
      && |words| == WordsFor(slots)
      && used == |InUse(words)|
      && forall i :: i in InUse(words) ==> i < slots
    }

    constructor (slots: nat)
      ensures Valid() && this.slots == slots && InUse(words) == {}
    {
      this.slots := slots;
      words := seq(WordsFor(slots), i => seq(WORD, j => false));
      used := 0;
      new;
      assert InUse(words) == {};
    }

    /** `alloc_slot`: the lowest free slot, or `None` exactly when every slot of
        the device is in use. */
    method AllocSlot() returns (r: Option<nat>)
      requires Valid()
      modifies this
      ensures Valid()
      ensures match r
              case None => words == old(words) && forall i: nat :: i in InUse(words) <==> i < slots
              case Some(i) =>
                && i < slots && i !in old(InUse(words)) && InUse(words) == old(InUse(words)) + {i}
                && forall j: nat :: j < i ==> j in old(InUse(words))
    {
      var wi := 0;
      while wi < |words|
        invariant 0 <= wi <= |words| && words == old(words) && used == old(used)
        invariant forall j: nat :: j < wi * WORD ==> j in InUse(words)
      {
        var bit := LowestClear(words[wi]);
        if bit < WORD {
          var idx := wi * WORD + bit;
          assert idx / WORD == wi && idx % WORD == bit;
          FullBelow(words, wi, bit);
          if idx >= slots {
            return None;
          }
          WithBitInUse(words, idx, true);
          assert idx !in InUse(words);
          words := words[wi := words[wi][bit := true]];
          used := used + 1;
          return Some(idx);
        }
        FullBelow(words, wi, WORD);
        wi := wi + 1;
      }
      r := None;
    }

    /** The lowest clear bit of a word, or 64 when it is all ones. */
    static method LowestClear(w: Word) returns (bit: nat)
      ensures bit <= WORD && (bit < WORD ==> !w[bit])
      ensures forall k :: 0 <= k < bit ==> w[k]
    {
      bit := 0;
      while bit < WORD && w[bit]
        invariant bit <= WORD
        invariant forall k :: 0 <= k < bit ==> w[k]
      {
        bit := bit + 1;
      }
    }

    /** Full words and full low bits mean that every slot below is in use. */
    static lemma FullBelow(words: seq<Word>, wi: nat, bit: nat)
      requires wi < |words| && bit <= WORD
      requires forall j: nat :: j < wi * WORD ==> j in InUse(words)
      requires forall k :: 0 <= k < bit ==> words[wi][k]
      ensures forall j: nat :: j < wi * WORD + bit ==> j in InUse(words)
    {
      forall j: nat | wi * WORD <= j < wi * WORD + bit ensures j in InUse(words) {
        assert j / WORD == wi && j % WORD == j - wi * WORD;
        InRange(words, j);
      }
    }

    /** `free_slot`: releasing a slot that is not in use does nothing. */
    method FreeSlot(i: nat)
      requires Valid()
      modifies this
      ensures Valid() && InUse(words) == old(InUse(words)) - {i}
    {
      var wi, bit := i / WORD, i % WORD;
      if wi < |words| {
        WithBitInUse(words, i, false);
        if words[wi][bit] {
          InRange(words, i);
          assert i in InUse(words);
          words := words[wi := words[wi][bit := false]];
          used := used - 1;
        } else {
          assert i !in InUse(words);
        }
      } else {
        assert i !in InUse(words);
      }
    }
  }

  /** Freeing what was allocated gives back the same bitmap. */
  lemma FreeUndoesAlloc(words: seq<Word>, i: nat)
    requires i / WORD < |words| && !BitSet(words, i)
    ensures WithBit(WithBit(words, i, true), i, false) == words
  {
    var w := words[i / WORD];
    assert w[i % WORD := true][i % WORD := false] == w;
  }
}
