/**
 * The French conjugation questions (server/etre_avoir.py): two fixed questions, "être" then
 * "avoir", served in turn as long as the learner answers well.
 */
module EtreAvoirQuestions {
  import opened Wrappers
  import opened Questions

  /** `EtreAvoir.questions`. */
  const QuestionList: seq<QuestionData> := [
    Question("Conjung\U{0103} verbul '\U{00EA}tre':",
             ["je", "", " ", "nous", "", "\n", "tu", "", " ", "vous", "", "\n", "il", "", " ", "ils", ""],
             ["suis", "es", "est", "sommes", "\U{00EA}tes", "sont"],
             ["je", "suis", " ", "nous", "sommes", "tu", "es", " ", "vous", "\U{00EA}tes", "il", "est", " ", "ils", "sont"]),
    Question("Conjung\U{0103} verbul 'avoir':",
             ["j'", "", " ", "nous", "", "\n", "tu", "", " ", "vous", "", "\n", "il", "", " ", "ils", ""],
             ["ai", "as", "a", "avons", "avez", "ont"],
             ["j'", "ai", " ", "nous", "avons", "tu", "as", " ", "vous", "avez", "il", "a", " ", "ils", "ont"])]

  /** The slot row without its line breaks `brk`: one slot per answer word. */
  function Unbroken<T(==)>(slots: seq<T>, brk: T): (r: seq<T>)
    ensures |r| <= |slots|
  {
    if slots == [] then []
    else Unbroken(slots[..|slots| - 1], brk) + (if slots[|slots| - 1] == brk then [] else [slots[|slots| - 1]])
  }

  /** The answer words that go into the `blank` slots, in order. */
  function BlankAnswers<T(==)>(fixed: seq<T>, correct: seq<T>, blank: T): seq<T>
    requires |fixed| == |correct|
  {
    if fixed == [] then []
    else
      var n := |fixed| - 1;
      BlankAnswers(fixed[..n], correct[..n], blank) + (if fixed[n] == blank then [correct[n]] else [])
  }

  /**
   * A slot row the learner can complete: without its line breaks it has one slot per answer word,
   * every fixed slot already shows its answer word, and the bank holds exactly the words of the blanks.
   */
  ghost predicate Fillable<T>(slots: seq<T>, bank: seq<T>, correct: seq<T>, blank: T, brk: T) {
    var fixed := Unbroken(slots, brk);
    |fixed| == |correct| &&
    (forall i :: 0 <= i < |fixed| && fixed[i] != blank ==> fixed[i] == correct[i]) &&
    multiset(bank) == multiset(BlankAnswers(fixed, correct, blank))
  }

  /** A question whose blanks ("") can be filled from its bank to give its answer; "\n" breaks lines. */
  ghost predicate Completable(q: QuestionData) {
    Fillable(q.slots, q.bankWords, q.correct, "", "\n")
  }

  lemma {:induction false} UnbrokenAppend<T>(a: seq<T>, b: seq<T>, brk: T)
    ensures Unbroken(a + b, brk) == Unbroken(a, brk) + Unbroken(b, brk)
    decreases |b|
  {
    if b != [] {
      var n := |b| - 1;
      assert (a + b)[..|a + b| - 1] == a + b[..n];
      UnbrokenAppend(a, b[..n], brk);
    } else {
      assert a + b == a;
    }
  }

  lemma {:induction false} BlankAnswersAppend<T>(f1: seq<T>, c1: seq<T>, f2: seq<T>, c2: seq<T>, blank: T)
    requires |f1| == |c1| && |f2| == |c2|
    ensures BlankAnswers(f1 + f2, c1 + c2, blank) == BlankAnswers(f1, c1, blank) + BlankAnswers(f2, c2, blank)
    decreases |f2|
  {
    if f2 != [] {
      var n := |f2| - 1;
      assert (f1 + f2)[..|f1 + f2| - 1] == f1 + f2[..n];
      assert (c1 + c2)[..|c1 + c2| - 1] == c1 + c2[..n];
      BlankAnswersAppend(f1, c1, f2[..n], c2[..n], blank);
    } else {
      assert f1 + f2 == f1 && c1 + c2 == c1;
    }
  }

  /** A row of a conjugation table has no line break to drop. */
  lemma RowUnbroken<T>(p1: T, p2: T, blank: T, gap: T, brk: T)
    requires p1 != brk && p2 != brk && gap != brk && blank != brk
    ensures Unbroken([p1, blank, gap, p2, blank], brk) == [p1, blank, gap, p2, blank]
  {
    var r := [p1, blank, gap, p2, blank];
    var e: seq<T> := [];
    assert r[..4] == [p1, blank, gap, p2] && r[..4][..3] == [p1, blank, gap];
    assert r[..4][..3][..2] == [p1, blank] && r[..4][..3][..2][..1] == [p1] && [p1][..0] == e;
    assert Unbroken([p1], brk) == [p1];
    assert Unbroken([p1, blank], brk) == [p1, blank];
    assert Unbroken([p1, blank, gap], brk) == [p1, blank, gap];
    assert Unbroken([p1, blank, gap, p2], brk) == [p1, blank, gap, p2];
  }

  /** The blanks of a row take the two verb forms, in order. */
  lemma RowBlanks<T>(p1: T, v1: T, p2: T, v2: T, blank: T, gap: T)
    requires p1 != blank && p2 != blank && gap != blank
    ensures BlankAnswers([p1, blank, gap, p2, blank], [p1, v1, gap, p2, v2], blank) == [v1, v2]
  {
    var r := [p1, blank, gap, p2, blank];
    var a := [p1, v1, gap, p2, v2];
    var e: seq<T> := [];
    assert r[..4] == [p1, blank, gap, p2] && r[..4][..3] == [p1, blank, gap];
    assert r[..4][..3][..2] == [p1, blank] && r[..4][..3][..2][..1] == [p1] && [p1][..0] == e;
    assert a[..4] == [p1, v1, gap, p2] && a[..4][..3] == [p1, v1, gap];
    assert a[..4][..3][..2] == [p1, v1] && a[..4][..3][..2][..1] == [p1];
    assert BlankAnswers([p1], [p1], blank) == e;
    assert BlankAnswers([p1, blank], [p1, v1], blank) == [v1];
    assert BlankAnswers([p1, blank, gap], [p1, v1, gap], blank) == [v1];
    assert BlankAnswers([p1, blank, gap, p2], [p1, v1, gap, p2], blank) == [v1];
  }

  /** One row of a conjugation table: two persons, each followed by the blank for its verb form. */
  lemma PairRow<T>(p1: T, v1: T, p2: T, v2: T, blank: T, gap: T, brk: T)
    requires p1 != blank && p2 != blank && gap != blank && p1 != brk && p2 != brk && gap != brk && blank != brk
    ensures Unbroken([p1, blank, gap, p2, blank], brk) == [p1, blank, gap, p2, blank]
    ensures BlankAnswers([p1, blank, gap, p2, blank], [p1, v1, gap, p2, v2], blank) == [v1, v2]
    ensures forall j :: 0 <= j < 5 && [p1, blank, gap, p2, blank][j] != blank ==> [p1, blank, gap, p2, blank][j] == [p1, v1, gap, p2, v2][j]
  {
    RowUnbroken(p1, p2, blank, gap, brk);
    RowBlanks(p1, v1, p2, v2, blank, gap);
  }

  /** Exchanging two neighbours keeps the multiset. */
  lemma Swap<T>(a: seq<T>, x: T, y: T, b: seq<T>)
    ensures multiset(a + [x, y] + b) == multiset(a + [y, x] + b)
  {
    assert multiset([x, y]) == multiset([y, x]);
  }

  /** Singular forms then plural forms are, as a multiset, the forms read row by row. */
  lemma Interleaved<T>(v1: T, v2: T, v3: T, w1: T, w2: T, w3: T)
    ensures multiset([v1, v2, v3, w1, w2, w3]) == multiset([v1, w1, v2, w2, v3, w3])
  {
    assert [v1, v2, v3, w1, w2, w3] == [v1, v2] + [v3, w1] + [w2, w3];
    assert [v1, v2] + [w1, v3] + [w2, w3] == [v1] + [v2, w1] + [v3, w2, w3];
    assert [v1] + [w1, v2] + [v3, w2, w3] == [v1, w1, v2] + [v3, w2] + [w3];
    assert [v1, w1, v2] + [w2, v3] + [w3] == [v1, w1, v2, w2, v3, w3];
    Swap([v1, v2], v3, w1, [w2, w3]);
    Swap([v1], v2, w1, [v3, w2, w3]);
    Swap([v1, w1, v2], v3, w2, [w3]);
  }

  /**
   * A three-row conjugation table, singular persons on the left and plural ones on the right, is
   * fillable from a bank listing the singular forms before the plural ones.
   */
  lemma TableFillable<T>(s1: T, s2: T, s3: T, p1: T, p2: T, p3: T, v1: T, v2: T, v3: T, w1: T, w2: T, w3: T,
                         blank: T, gap: T, brk: T)
    requires s1 != blank && s2 != blank && s3 != blank && p1 != blank && p2 != blank && p3 != blank
    requires s1 != brk && s2 != brk && s3 != brk && p1 != brk && p2 != brk && p3 != brk
    requires gap != blank && gap != brk && blank != brk
    ensures Fillable([s1, blank, gap, p1, blank, brk, s2, blank, gap, p2, blank, brk, s3, blank, gap, p3, blank],
                     [v1, v2, v3, w1, w2, w3],
                     [s1, v1, gap, p1, w1, s2, v2, gap, p2, w2, s3, v3, gap, p3, w3], blank, brk)
  {
    var slots := [s1, blank, gap, p1, blank, brk, s2, blank, gap, p2, blank, brk, s3, blank, gap, p3, blank];
    var correct := [s1, v1, gap, p1, w1, s2, v2, gap, p2, w2, s3, v3, gap, p3, w3];
    var r1, r2, r3 := [s1, blank, gap, p1, blank], [s2, blank, gap, p2, blank], [s3, blank, gap, p3, blank];
    var a1, a2, a3 := [s1, v1, gap, p1, w1], [s2, v2, gap, p2, w2], [s3, v3, gap, p3, w3];
    PairRow(s1, v1, p1, w1, blank, gap, brk);
    PairRow(s2, v2, p2, w2, blank, gap, brk);
    PairRow(s3, v3, p3, w3, blank, gap, brk);
    assert slots == r1 + [brk] + r2 + [brk] + r3;
    var e: seq<T> := [];
    assert Unbroken([brk], brk) == e by { assert [brk][..0] == e; }
    UnbrokenAppend(r1, [brk], brk);
    UnbrokenAppend(r1 + [brk], r2, brk);
    UnbrokenAppend(r1 + [brk] + r2, [brk], brk);
    UnbrokenAppend(r1 + [brk] + r2 + [brk], r3, brk);
    var fixed := r1 + r2 + r3;
    assert Unbroken(slots, brk) == fixed;
    assert correct == a1 + a2 + a3;
    BlankAnswersAppend(r1, a1, r2, a2, blank);
    BlankAnswersAppend(r1 + r2, a1 + a2, r3, a3, blank);
    assert BlankAnswers(fixed, correct, blank) == [v1, w1] + [v2, w2] + [v3, w3] == [v1, w1, v2, w2, v3, w3];
    assert |fixed| == |correct|;
    forall i | 0 <= i < |fixed| && fixed[i] != blank
      ensures fixed[i] == correct[i]
    {
      if i < 5 {
        assert fixed[i] == r1[i] && correct[i] == a1[i];
      } else if i < 10 {
        assert fixed[i] == r2[i - 5] && correct[i] == a2[i - 5];
      } else {
        assert fixed[i] == r3[i - 10] && correct[i] == a3[i - 10];
      }
    }
    var bank := [v1, v2, v3, w1, w2, w3];
    Interleaved(v1, v2, v3, w1, w2, w3);
    assert multiset(bank) == multiset(BlankAnswers(fixed, correct, blank));
  }

  /** The "être" table can be completed from its bank. */
  lemma EtreCompletable()
    ensures Completable(QuestionList[0])
  {
    TableFillable("je", "tu", "il", "nous", "vous", "ils", "suis", "es", "est", "sommes", "\U{00EA}tes", "sont", "", " ", "\n");
  }

  /** The "avoir" table can be completed from its bank. */
  lemma AvoirCompletable()
    ensures Completable(QuestionList[1])
  {
    TableFillable("j'", "tu", "il", "nous", "vous", "ils", "ai", "as", "a", "avons", "avez", "ont", "", " ", "\n");
  }

  /** Both questions can be completed from their banks. */
  lemma QuestionsCompletable()
    ensures forall i :: 0 <= i < |QuestionList| ==> Completable(QuestionList[i])
  {
    assert |QuestionList| == 2;
    EtreCompletable();
    AvoirCompletable();
    forall i | 0 <= i < |QuestionList|
      ensures Completable(QuestionList[i])
    {
      if i != 0 {
        assert i == 1;
      }
    }
  }

  /** `get_pronounciations`: the recording of each word the questions show. */
  const Pronunciations: map<string, string> := map[
    "je" := "/assets/pron/fr/je.m4a", "j'" := "/assets/pron/fr/j.m4a", "tu" := "/assets/pron/fr/tu.m4a",
    "il" := "/assets/pron/fr/il.m4a", "nous" := "/assets/pron/fr/nous.m4a", "vous" := "/assets/pron/fr/vous.m4a",
    "ils" := "/assets/pron/fr/il.m4a", "suis" := "/assets/pron/fr/suis.m4a", "es" := "/assets/pron/fr/e.m4a",
    "est" := "/assets/pron/fr/e.m4a", "sommes" := "/assets/pron/fr/sommes.m4a", "\U{00EA}tes" := "/assets/pron/fr/etes.m4a",
    "sont" := "/assets/pron/fr/sont.m4a", "ai" := "/assets/pron/fr/ai.m4a", "as" := "/assets/pron/fr/a.m4a",
    "a" := "/assets/pron/fr/a.m4a", "avons" := "/assets/pron/fr/avons.m4a", "avez" := "/assets/pron/fr/avez.m4a",
    "ont" := "/assets/pron/fr/ont.m4a"]

  /** Every word of the word banks has a recording. */
  lemma BankWordsPronounced()
    ensures forall i, w :: 0 <= i < |QuestionList| && w in QuestionList[i].bankWords ==> w in Pronunciations
  {
    assert QuestionList[0].bankWords == ["suis", "es", "est", "sommes", "\U{00EA}tes", "sont"];
    assert QuestionList[1].bankWords == ["ai", "as", "a", "avons", "avez", "ont"];
  }

  /**
   * The question served once the count has moved: none from the third on, else the question at the
   * count, where a count of -1 (a failed first answer) reads from the end as Python does.
   */
  function Served(count: int): (r: Option<QuestionData>)
    requires count >= -1
    ensures r.None? <==> count >= 2
    ensures count == -1 ==> r == Some(QuestionList[1])
    ensures 0 <= count < 2 ==> r == Some(QuestionList[count])
  {
    if count >= |QuestionList| then None
    else Some(QuestionList[if count < 0 then count + |QuestionList| else count])
  }

  /** `EtreAvoir`: the count of the question served last. */
  class EtreAvoir {
    var count: int

    ghost predicate Valid()
      reads this
    {
      count >= -1
    }

    constructor ()
      ensures Valid() && count == -1
    {
      count := -1;
    }

    /** `get_next_question`: a good answer moves to the next question. */
    method GetNextQuestion(previousWasGood: bool) returns (q: Option<QuestionData>)
      requires Valid()
      modifies this
      ensures Valid() && count == old(count) + (if previousWasGood then 1 else 0)
      ensures q == Served(count)
    {
      if previousWasGood {
        count := count + 1;
      }
      if count >= |QuestionList| {
        return None;
      }
      q := Some(QuestionList[if count < 0 then count + |QuestionList| else count]);
    }
  }
}
