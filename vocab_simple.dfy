/**
 * The picture-vocabulary sequence (server/vocab_simple.py): seven words in a shuffled order, served
 * three at a time, each chunk as a matching question of pictures and words.
 */
module VocabQuestions {
  import opened Wrappers

  /** The words of the sequence, before shuffling. */
  const Words: seq<string> := ["fleur", "soleil", "stylo", "\U{00E9}l\U{00E8}ves", "crayon", "\U{00E9}toile", "rose"]

  /** How many words a question shows. */
  const Fit: int := 3

  const VocabPrompt: string := "Potrivi\U{021B}i cuvintele:"

  /** A picture target: the word whose image it shows and the slot it belongs to. */
  datatype Target = Target(imageId: string, slotIndex: nat)

  /** The question payload of the vocabulary screen. */
  datatype VocabQuestion = VocabQuestion(prompt: string, slotCount: nat, targets: seq<Target>,
                                         bankWords: seq<string>, correct: seq<string>)

  /** Where a Python slice bound lands in a sequence of length n: negatives count from the end, all clamp. */
  function SliceBound(i: int, n: nat): (b: nat)
    ensures b <= n
    ensures 0 <= i <= n ==> b == i
    ensures i > n ==> b == n
    ensures i < 0 ==> b == if i + n < 0 then 0 else i + n
  {
    if i < 0 then (if i + n < 0 then 0 else i + n)
    else if i > n then n
    else i
  }

  /** `s[i:j]` with Python's semantics. */
  function Slice<T>(s: seq<T>, i: int, j: int): (r: seq<T>)
    ensures |r| <= |s|
  {
    var lo, hi := SliceBound(i, |s|), SliceBound(j, |s|);
    if lo <= hi then s[lo..hi] else []
  }

  /** The words of the question at `index`: `vocab[index:index+fit]`. */
  function Chunk(vocab: seq<string>, index: int): seq<string> {
    Slice(vocab, index, index + Fit)
  }

  /** At most `Fit` words; from a natural index inside the list, the next `Fit` words or the rest of the list. */
  lemma ChunkWords(vocab: seq<string>, index: int)
    ensures |Chunk(vocab, index)| <= Fit
    ensures 0 <= index <= |vocab| ==>
              Chunk(vocab, index) == vocab[index..if index + Fit <= |vocab| then index + Fit else |vocab|]
  {
  }

  /** The matching question over some words: one slot and one picture per word, the words as bank and answer. */
  function Payload(chunk: seq<string>): (q: VocabQuestion)
    ensures q.prompt == VocabPrompt && q.slotCount == |chunk|
    ensures |q.targets| == |chunk| && forall k :: 0 <= k < |chunk| ==> q.targets[k] == Target(chunk[k], k)
    ensures q.bankWords == chunk && q.correct == chunk
  {
    VocabQuestion(VocabPrompt, |chunk|, seq(|chunk|, k requires 0 <= k < |chunk| => Target(chunk[k], k)), chunk, chunk)
  }

  /** The question served once the index has moved: none past the end of the list, else its chunk. */
  function Served(vocab: seq<string>, index: int): (r: Option<VocabQuestion>)
    ensures r.None? <==> index >= |vocab|
  {
    if index >= |vocab| then None else Some(Payload(Chunk(vocab, index)))
  }

  /**
   * A failed first answer leaves the index at -3, whose slice of the seven words, `vocab[-3:0]`, is
   * empty: the question served has no word.
   */
  lemma FailedFirstIsEmpty(vocab: seq<string>)
    requires |vocab| == |Words|
    ensures Chunk(vocab, -Fit) == []
    ensures Served(vocab, -Fit) == Some(Payload([]))
  {
  }

  /** The words served from `index` on, one good answer after another, until the list is used up. */
  function Successive(vocab: seq<string>, index: nat): seq<string>
    decreases |vocab| - index
  {
    if index >= |vocab| then [] else Chunk(vocab, index) + Successive(vocab, index + Fit)
  }

  /** Successive chunks are consecutive and disjoint: together they are the rest of the list. */
  lemma {:induction false} SuccessiveCovers(vocab: seq<string>, index: nat)
    requires index <= |vocab|
    ensures Successive(vocab, index) == vocab[index..]
    decreases |vocab| - index
  {
    if index < |vocab| {
      ChunkWords(vocab, index);
      if index + Fit <= |vocab| {
        SuccessiveCovers(vocab, index + Fit);
        assert vocab[index..] == vocab[index..index + Fit] + vocab[index + Fit..];
      } else {
        assert Successive(vocab, index + Fit) == [];
      }
    }
  }

  /**
   * Seven shuffled words, answered well each time, are served as chunks of 3, 3 and 1 words that
   * together are the whole list, and then nothing.
   */
  lemma SevenWordsServed(vocab: seq<string>)
    requires |vocab| == |Words|
    ensures Served(vocab, 0).Some? && Served(vocab, Fit).Some? && Served(vocab, 2 * Fit).Some?
    ensures |Served(vocab, 0).value.correct| == 3 && |Served(vocab, Fit).value.correct| == 3
    ensures |Served(vocab, 2 * Fit).value.correct| == 1
    ensures Served(vocab, 0).value.correct + Served(vocab, Fit).value.correct + Served(vocab, 2 * Fit).value.correct == vocab
    ensures Served(vocab, 3 * Fit).None?
  {
    ChunkWords(vocab, 0);
    ChunkWords(vocab, Fit);
    ChunkWords(vocab, 2 * Fit);
    assert vocab == vocab[0..3] + vocab[3..6] + vocab[6..7];
  }

  /** `get_pronounciations`: the recording of each word. */
  const Pronunciations: map<string, string> := map[
    "fleur" := "/assets/pron/fr/fleur.m4a", "soleil" := "/assets/pron/fr/soleil.m4a",
    "crayon" := "/assets/pron/fr/crayon.m4a", "stylo" := "/assets/pron/fr/stylo.m4a",
    "\U{00E9}toile" := "/assets/pron/fr/etoile.m4a", "\U{00E9}l\U{00E8}ves" := "/assets/pron/fr/eleve.m4a",
    "rose" := "/assets/pron/fr/rose.m4a"]

  /** `get_images`: the picture of each word. */
  const Images: map<string, string> := map[
    "fleur" := "/assets/images/fleur.png", "soleil" := "/assets/images/soleil.png",
    "crayon" := "/assets/images/crayon.png", "stylo" := "/assets/images/stylo.png",
    "\U{00E9}toile" := "/assets/images/etoile.png", "\U{00E9}l\U{00E8}ves" := "/assets/images/eleves.png",
    "rose" := "/assets/images/rose.png"]

  /** Every word of any order of the list has a recording and a picture. */
  lemma WordsHaveMedia(vocab: seq<string>)
    requires multiset(vocab) == multiset(Words)
    ensures forall w :: w in vocab ==> w in Pronunciations && w in Images
  {
    forall w | w in vocab
      ensures w in Pronunciations && w in Images
    {
      assert w in multiset(Words);
    }
  }

  /** `VocabSimple`: the shuffled words, the chunk size and the index of the chunk served last. */
  class VocabSimple {
    var vocab: seq<string>
    const fit: int
    var index: int

    /** The words are a reordering of the list, and the index never falls below its start. */
    ghost predicate Valid()
      reads this
    {
      fit == Fit && multiset(vocab) == multiset(Words) && index >= -fit
    }

    /** The list, shuffled into the order `shuffled`, before any question. */
    constructor (shuffled: seq<string>)
      requires multiset(shuffled) == multiset(Words)
      ensures Valid() && vocab == shuffled && index == -Fit
    {
      vocab := Words;
      fit := Fit;
      index := -Fit;
      vocab := shuffled;
    }

    /** `get_next_question`: a good answer moves to the next chunk. */
    method GetNextQuestion(previousWasGood: bool) returns (q: Option<VocabQuestion>)
      requires Valid()
      modifies this
      ensures Valid() && vocab == old(vocab)
      ensures index == old(index) + (if previousWasGood then fit else 0)
      ensures q == Served(vocab, index)
    {
      if previousWasGood {
        index := index + fit;
      }
      if index >= |vocab| {
        return None;
      }
      var chunk := Slice(vocab, index, index + fit);
      q := Some(Payload(chunk));
    }
  }
}
