/** The ladder's two-level occupancy bitmap, against the set of occupied indices it stands for. */
module Bitmap {
  import opened Bits

  function Words(n: nat): nat {
    (n + 63) / 64
  }

  predicate BitAt(words: seq<Word>, i: nat) {
    i / 64 < |words| && Bit(words[i / 64], i % 64)
  }

  function SetAt(words: seq<Word>, i: nat): seq<Word>
    requires i / 64 < |words|
  {
    words[i / 64 := Or(words[i / 64], Mask(i % 64))]
  }

  function ClearAt(words: seq<Word>, i: nat): seq<Word>
    requires i / 64 < |words|
  {
    words[i / 64 := AndNot(words[i / 64], Mask(i % 64))]
  }

  lemma SetAtBits(words: seq<Word>, i: nat, j: nat)
    requires i / 64 < |words|
    ensures BitAt(SetAt(words, i), j) <==> BitAt(words, j) || j == i
  {
    hide Bit, Mask, Or;
    if j / 64 == i / 64 {
      SetBit(words[i / 64], i % 64, j % 64);
    }
  }

  lemma ClearAtBits(words: seq<Word>, i: nat, j: nat)
    requires i / 64 < |words|
    ensures BitAt(ClearAt(words, i), j) <==> BitAt(words, j) && j != i
  {
    hide Bit, Mask, AndNot;
    if j / 64 == i / 64 {
      ClearBit(words[i / 64], i % 64, j % 64);
    }
  }

  /** A bit of the first level for each occupied index, one of the second for each non-zero word. */
  ghost predicate Marks(occupied: seq<Word>, summary: seq<Word>, count: nat, held: set<nat>) {
    && |occupied| == Words(count) && |summary| == Words(|occupied|)
    && (forall i :: i in held ==> i < count)
    && (forall i: nat :: BitAt(occupied, i) <==> i in held)
    && (forall w: nat :: BitAt(summary, w) <==> w < |occupied| && occupied[w] != 0)
  }

  lemma InRange(count: nat, i: nat)
    requires i < count
    ensures i / 64 < Words(count) && (i / 64) / 64 < Words(Words(count))
  {
  }

  /** The word of an occupied index is non-zero, and an empty word holds no occupied index. */
  lemma WordOf(occupied: seq<Word>, i: nat)
    requires BitAt(occupied, i)
    ensures i / 64 < |occupied| && occupied[i / 64] != 0
  {
    hide Bit;
    if occupied[i / 64] == 0 {
      ZeroIff(0);
    }
  }

  lemma BitRange(w: Word, i: nat)
    requires Bit(w, i)
    ensures i < 64
  {
  }

  lemma MarkKeepsSummary(occupied: seq<Word>, summary: seq<Word>, count: nat, held: set<nat>, i: nat)
    requires Marks(occupied, summary, count, held) && i < count
    ensures i / 64 < |occupied| && (i / 64) / 64 < |summary|
    ensures var occupied' := SetAt(occupied, i);
            var summary' := if BitAt(occupied, i) then summary else SetAt(summary, i / 64);
            forall w: nat :: BitAt(summary', w) <==> w < |occupied'| && occupied'[w] != 0
  {
    hide Bit, Mask, Or;
    InRange(count, i);
    var occupied' := SetAt(occupied, i);
    SetAtBits(occupied, i, i);
    WordOf(occupied', i);
    var summary' := if BitAt(occupied, i) then summary else SetAt(summary, i / 64);
    if BitAt(occupied, i) {
      WordOf(occupied, i);
    }
    forall w: nat ensures BitAt(summary', w) <==> (w < |occupied'| && occupied'[w] != 0) {
      SetAtBits(summary, i / 64, w);
    }
  }

  /** set_occupied: the summary bit is written only when the first-level bit was clear. */
  lemma MarkAdds(occupied: seq<Word>, summary: seq<Word>, count: nat, held: set<nat>, i: nat)
    requires Marks(occupied, summary, count, held) && i < count
    ensures i / 64 < |occupied| && (i / 64) / 64 < |summary|
    ensures Marks(SetAt(occupied, i), if BitAt(occupied, i) then summary else SetAt(summary, i / 64), count, held + {i})
  {
    hide Bit, Mask, Or;
    MarkKeepsSummary(occupied, summary, count, held, i);
    forall j: nat ensures BitAt(SetAt(occupied, i), j) <==> j in held + {i} {
      SetAtBits(occupied, i, j);
    }
  }

  /** clear_occupied: the summary bit goes when the word becomes zero. */
  lemma MarkRemoves(occupied: seq<Word>, summary: seq<Word>, count: nat, held: set<nat>, i: nat)
    requires Marks(occupied, summary, count, held) && i in held
    ensures i / 64 < |occupied| && (i / 64) / 64 < |summary|
    ensures var occupied' := ClearAt(occupied, i);
            Marks(occupied', if occupied'[i / 64] == 0 then ClearAt(summary, i / 64) else summary, count, held - {i})
  {
    hide Bit, Mask, AndNot;
    InRange(count, i);
    var occupied' := ClearAt(occupied, i);
    WordOf(occupied, i);
    forall j: nat ensures BitAt(occupied', j) <==> j in held - {i} {
      ClearAtBits(occupied, i, j);
    }
    var summary' := if occupied'[i / 64] == 0 then ClearAt(summary, i / 64) else summary;
    forall w: nat ensures BitAt(summary', w) <==> (w < |occupied'| && occupied'[w] != 0) {
      ClearAtBits(summary, i / 64, w);
    }
  }

  // ---- best_index

  /** The lowest occupied index under a non-zero summary word, as the source computes it. */
  function LowestUnder(occupied: seq<Word>, summary: seq<Word>, word: nat): nat
    requires word < |summary| && summary[word] != 0
    requires var w := word * 64 + Lowest(summary[word]); w < |occupied| && occupied[w] != 0
  {
    var w := word * 64 + Lowest(summary[word]);
    w * 64 + Lowest(occupied[w])
  }

  function HighestUnder(occupied: seq<Word>, summary: seq<Word>, word: nat): nat
    requires word < |summary| && summary[word] != 0
    requires var w := word * 64 + Highest(summary[word]); w < |occupied| && occupied[w] != 0
  {
    var w := word * 64 + Highest(summary[word]);
    w * 64 + Highest(occupied[w])
  }

  /** The lowest bit of a non-zero word is the least set index from that word on. */
  lemma LeastFrom(words: seq<Word>, w: nat)
    requires w < |words| && words[w] != 0
    ensures var i := w * 64 + Lowest(words[w]);
            && i / 64 == w && BitAt(words, i)
            && forall j: nat :: BitAt(words, j) && j / 64 >= w ==> i <= j
  {
    hide Bit, Lowest;
    var b := Lowest(words[w]);
    BitRange(words[w], b);
    assert (w * 64 + b) % 64 == b;
    forall j: nat | BitAt(words, j) && j / 64 >= w ensures w * 64 + b <= j {
      assert j / 64 == w ==> j % 64 >= b;
    }
  }

  /** The highest bit of a non-zero word is the greatest set index up to that word. */
  lemma GreatestUpTo(words: seq<Word>, w: nat)
    requires w < |words| && words[w] != 0
    ensures var i := w * 64 + Highest(words[w]);
            && i / 64 == w && BitAt(words, i)
            && forall j: nat :: BitAt(words, j) && j / 64 <= w ==> j <= i
  {
    hide Bit, Highest;
    var b := Highest(words[w]);
    BitRange(words[w], b);
    assert (w * 64 + b) % 64 == b;
    forall j: nat | BitAt(words, j) && j / 64 <= w ensures j <= w * 64 + b {
      assert j / 64 == w ==> j % 64 <= b;
    }
  }

  lemma LowestUnderIsLeast(occupied: seq<Word>, summary: seq<Word>, count: nat, held: set<nat>, word: nat)
    requires Marks(occupied, summary, count, held) && word < |summary| && summary[word] != 0
    ensures var w := word * 64 + Lowest(summary[word]); w < |occupied| && occupied[w] != 0
    ensures var i := LowestUnder(occupied, summary, word);
            && i in held && i / 64 / 64 == word
            && forall j :: j in held && j / 64 / 64 >= word ==> i <= j
  {
    hide Lowest, BitAt;
    LeastFrom(summary, word);
    LeastFrom(occupied, word * 64 + Lowest(summary[word]));
    forall j | j in held && j / 64 / 64 >= word ensures LowestUnder(occupied, summary, word) <= j {
      assert BitAt(occupied, j);
      WordOf(occupied, j);
      assert BitAt(summary, j / 64);
    }
  }

  lemma HighestUnderIsGreatest(occupied: seq<Word>, summary: seq<Word>, count: nat, held: set<nat>, word: nat)
    requires Marks(occupied, summary, count, held) && word < |summary| && summary[word] != 0
    ensures var w := word * 64 + Highest(summary[word]); w < |occupied| && occupied[w] != 0
    ensures var i := HighestUnder(occupied, summary, word);
            && i in held && i / 64 / 64 == word
            && forall j :: j in held && j / 64 / 64 <= word ==> j <= i
  {
    hide Highest, BitAt;
    GreatestUpTo(summary, word);
    GreatestUpTo(occupied, word * 64 + Highest(summary[word]));
    forall j | j in held && j / 64 / 64 <= word ensures j <= HighestUnder(occupied, summary, word) {
      assert BitAt(occupied, j);
      WordOf(occupied, j);
      assert BitAt(summary, j / 64);
    }
  }

  lemma ZeroSummary(occupied: seq<Word>, summary: seq<Word>, count: nat, held: set<nat>, j: nat)
    requires Marks(occupied, summary, count, held) && j in held
    ensures j / 64 / 64 < |summary| && summary[j / 64 / 64] != 0
  {
    hide Bit;
    assert BitAt(occupied, j);
    WordOf(occupied, j);
    assert BitAt(summary, j / 64);
    WordOf(summary, j / 64);
  }
}
