/**
 * The English copula questions (server/engl_question_gen.py): a subject and a nominal predicate make
 * a statement, a question or a short answer with "to be"; the question sequence asks the learner to
 * turn a statement into a question and a short negative answer.
 */
module EnglQuestions {
  import opened Wrappers
  import opened Questions

  // ---------------------------------------------------------------------------------------------
  // The tables, by number then person

  /** A number and a person the tables know. */
  predicate InTables(num: int, pers: int) {
    (num == 1 || num == 2) && (pers == 1 || pers == 2 || pers == 3)
  }

  /** `TO_BE`: "am", "are", "is" in the singular, "are" in the plural. */
  function ToBe(num: int, pers: int): string
    requires InTables(num, pers)
  {
    if num == 2 then "are" else if pers == 1 then "am" else if pers == 2 then "are" else "is"
  }

  /** `TO_BE_NEG`: "'m not", "aren't", "isn't" in the singular, "aren't" in the plural. */
  function ToBeNeg(num: int, pers: int): string
    requires InTables(num, pers)
  {
    if num == 2 then "aren't" else if pers == 1 then "'m not" else if pers == 2 then "aren't" else "isn't"
  }

  /** `SUBJ_PRONS`: the subject pronouns of each number and person, the usual one first. */
  function SubjProns(num: int, pers: int): (ps: seq<string>)
    requires InTables(num, pers)
    ensures ps != [] && ',' !in ps[0]
  {
    if num == 1 then (if pers == 1 then ["I"] else if pers == 2 then ["you"] else ["he", "she", "it"])
    else (if pers == 1 then ["we"] else if pers == 2 then ["you"] else ["they"])
  }

  /** The copula: `TO_BE` when affirmative, `TO_BE_NEG` otherwise. */
  function Verb(num: int, pers: int, affirm: bool): string
    requires InTables(num, pers)
  {
    if affirm then ToBe(num, pers) else ToBeNeg(num, pers)
  }

  /** The negated copula is the affirmative one with "n't", except "'m not" for "am". */
  lemma NegatedVerb(num: int, pers: int)
    requires InTables(num, pers)
    ensures (num, pers) != (1, 1) ==> Verb(num, pers, false) == Verb(num, pers, true) + "n't"
    ensures (num, pers) == (1, 1) ==> Verb(num, pers, true) == "am" && Verb(num, pers, false) == "'m not"
  {
  }

  /** A row of the subjects table: its form, person, number and pronoun list ("" for none). */
  datatype Subject = Subject(subj: string, pers: int, num: int, pronoun: string)

  /** A row of the predicates table: its form. */
  datatype NPred = NPred(npred: string)

  // ---------------------------------------------------------------------------------------------
  // Strings

  /** The first occurrence of a character. */
  function FirstIndex(s: string, c: char): (k: nat)
    requires c in s
    ensures k < |s| && s[k] == c && c !in s[..k]
  {
    if s[0] == c then 0
    else
      assert c in s[1..];
      var k := FirstIndex(s[1..], c);
      assert s[..k + 1] == [s[0]] + s[1..][..k];
      k + 1
  }

  /** `s.split(sep)`: the pieces between separators, empty pieces included. */
  function SplitOn(s: string, sep: char): (parts: seq<string>)
    ensures |parts| >= 1
    ensures forall i :: 0 <= i < |parts| ==> sep !in parts[i]
    decreases |s|
  {
    if sep !in s then [s]
    else
      var k := FirstIndex(s, sep);
      [s[..k]] + SplitOn(s[k + 1..], sep)
  }

  /** `sep.join(parts)`. */
  function Join(parts: seq<string>, sep: string): string {
    if parts == [] then ""
    else if |parts| == 1 then parts[0]
    else parts[0] + sep + Join(parts[1..], sep)
  }

  /** Joining the pieces of a split with the separator gives back the string. */
  lemma {:induction false} JoinSplit(s: string, sep: char)
    ensures Join(SplitOn(s, sep), [sep]) == s
    decreases |s|
  {
    if sep in s {
      var k := FirstIndex(s, sep);
      var rest := SplitOn(s[k + 1..], sep);
      JoinSplit(s[k + 1..], sep);
      assert SplitOn(s, sep) == [s[..k]] + rest;
      assert ([s[..k]] + rest)[1..] == rest;
      assert s == s[..k] + [sep] + s[k + 1..];
    }
  }

  /**
   * The whitespace `str.split()` separates words at, as far as this model goes: space, tab, line
   * feed, carriage return, vertical tab and form feed. Python also splits at \x1c-\x1f, \x85,
   * \xa0 and the Unicode space separators, which are not modelled.
   */
  predicate IsSpace(c: char) {
    c == ' ' || c == '\t' || c == '\n' || c == '\r' || c == '\U{000B}' || c == '\U{000C}'
  }

  /** The string without its leading whitespace. */
  function DropSpaces(s: string): (r: string)
    ensures |r| <= |s|
    ensures r == [] || !IsSpace(r[0])
  {
    if s == [] || !IsSpace(s[0]) then s else DropSpaces(s[1..])
  }

  /** What is dropped is whitespace, and what is kept is the end of the string. */
  lemma {:induction false} DropSpacesSuffix(s: string)
    ensures var r := DropSpaces(s);
            r == s[|s| - |r|..] && forall i :: 0 <= i < |s| - |r| ==> IsSpace(s[i])
    decreases |s|
  {
    if s != [] && IsSpace(s[0]) {
      DropSpacesSuffix(s[1..]);
    }
  }

  /** The length of the leading run of non-whitespace. */
  function WordEnd(s: string): (k: nat)
    ensures k <= |s| && (k < |s| ==> IsSpace(s[k]))
    ensures forall i :: 0 <= i < k ==> !IsSpace(s[i])
  {
    if s == [] || IsSpace(s[0]) then 0 else 1 + WordEnd(s[1..])
  }

  /** `s.split()`: the maximal runs of non-whitespace, in order. */
  function Words(s: string): seq<string>
    decreases |s|
  {
    var t := DropSpaces(s);
    if t == [] then []
    else
      var k := WordEnd(t);
      [t[..k]] + Words(t[k..])
  }

  /** A string without whitespace. */
  predicate NoSpaceIn(w: string) {
    w == [] || (!IsSpace(w[0]) && NoSpaceIn(w[1..]))
  }

  /** A nonempty run of non-whitespace. */
  predicate IsWord(w: string) {
    w != [] && NoSpaceIn(w)
  }

  /** The leading run of non-whitespace holds no whitespace. */
  lemma {:induction false} LeadingRunNoSpace(t: string)
    ensures NoSpaceIn(t[..WordEnd(t)])
    decreases |t|
  {
    if t != [] && !IsSpace(t[0]) {
      LeadingRunNoSpace(t[1..]);
      assert t[..WordEnd(t)][1..] == t[1..][..WordEnd(t[1..])];
    }
  }

  /** A word in front of a list of words gives a list of words. */
  lemma ConsWords(w: string, rest: seq<string>)
    requires IsWord(w) && forall i :: 0 <= i < |rest| ==> IsWord(rest[i])
    ensures forall i :: 0 <= i < |[w] + rest| ==> IsWord(([w] + rest)[i])
  {
    forall i | 0 <= i < |[w] + rest|
      ensures IsWord(([w] + rest)[i])
    {
      if i > 0 {
        assert ([w] + rest)[i] == rest[i - 1];
      }
    }
  }

  /** No word is empty and none holds whitespace. */
  lemma {:induction false} WordsAreWords(s: string)
    ensures var ws := Words(s); forall i :: 0 <= i < |ws| ==> IsWord(ws[i])
    decreases |s|
  {
    var t := DropSpaces(s);
    if t != [] {
      var k := WordEnd(t);
      LeadingRunNoSpace(t);
      WordsAreWords(t[k..]);
      assert Words(s) == [t[..k]] + Words(t[k..]);
      ConsWords(t[..k], Words(t[k..]));
    }
  }

  /** The non-whitespace characters of a string, in order. */
  function NonSpace(s: string): string {
    if s == [] then [] else (if IsSpace(s[0]) then [] else [s[0]]) + NonSpace(s[1..])
  }

  /** The words laid end to end. */
  function Concat(ws: seq<string>): string {
    if ws == [] then [] else ws[0] + Concat(ws[1..])
  }

  lemma {:induction false} NonSpaceAppend(a: string, b: string)
    ensures NonSpace(a + b) == NonSpace(a) + NonSpace(b)
    decreases |a|
  {
    if a != [] {
      assert (a + b)[1..] == a[1..] + b;
      NonSpaceAppend(a[1..], b);
    } else {
      assert a + b == b;
    }
  }

  lemma {:induction false} NonSpaceOfSpaces(s: string, n: nat)
    requires n <= |s| && forall i :: 0 <= i < n ==> IsSpace(s[i])
    ensures NonSpace(s[..n]) == []
    decreases n
  {
    if n > 0 {
      assert s[..n][1..] == s[1..][..n - 1];
      NonSpaceOfSpaces(s[1..], n - 1);
    }
  }

  lemma {:induction false} NonSpaceOfWord(s: string)
    requires forall i :: 0 <= i < |s| ==> !IsSpace(s[i])
    ensures NonSpace(s) == s
    decreases |s|
  {
    if s != [] {
      NonSpaceOfWord(s[1..]);
    }
  }

  /** Leading whitespace carries no text. */
  lemma DropSpacesText(s: string)
    ensures NonSpace(DropSpaces(s)) == NonSpace(s)
  {
    var t := DropSpaces(s);
    var n := |s| - |t|;
    DropSpacesSuffix(s);
    calc {
      NonSpace(s);
      { assert s == s[..n] + t; }
      NonSpace(s[..n] + t);
      { NonSpaceAppend(s[..n], t); }
      NonSpace(s[..n]) + NonSpace(t);
      { NonSpaceOfSpaces(s, n); }
      NonSpace(t);
    }
  }

  /** The text of a string is its first word followed by the text of the rest. */
  lemma FirstWordText(t: string)
    ensures NonSpace(t) == t[..WordEnd(t)] + NonSpace(t[WordEnd(t)..])
  {
    var k := WordEnd(t);
    assert t == t[..k] + t[k..];
    NonSpaceAppend(t[..k], t[k..]);
    NonSpaceOfWord(t[..k]);
  }

  /** Splitting on whitespace loses exactly the whitespace: the words laid end to end are the other characters. */
  lemma {:induction false} WordsKeepText(s: string)
    ensures Concat(Words(s)) == NonSpace(s)
    decreases |s|
  {
    var t := DropSpaces(s);
    DropSpacesText(s);
    if t != [] {
      var k := WordEnd(t);
      FirstWordText(t);
      WordsKeepText(t[k..]);
      var ws := [t[..k]] + Words(t[k..]);
      assert ws == Words(s);
      assert ws[1..] == Words(t[k..]);
    }
  }

  /** A non-empty string without whitespace is one word. */
  lemma OneWord(s: string)
    requires s != [] && forall i :: 0 <= i < |s| ==> !IsSpace(s[i])
    ensures Words(s) == [s]
  {
    assert DropSpaces(s) == s;
    var k := WordEnd(s);
    if k < |s| {
      assert false;
    }
    assert s[..k] == s && s[k..] == [];
    assert DropSpaces([]) == [];
  }

  /** Python's `str.upper` on one character (its ASCII letters). */
  function Upper(c: char): char {
    if 'a' <= c <= 'z' then (c as int - 32) as char else c
  }

  /** `_cap`: the first character upper-cased, the rest kept. */
  function Cap(s: string): (r: string)
    requires s != []
    ensures |r| == |s| && r[0] == Upper(s[0]) && r[1..] == s[1..]
  {
    [Upper(s[0])] + s[1..]
  }

  /** Capitalising twice is capitalising once. */
  lemma CapIdempotent(s: string)
    requires s != []
    ensures Cap(Cap(s)) == Cap(s)
  {
    assert Upper(Upper(s[0])) == Upper(s[0]);
  }

  // ---------------------------------------------------------------------------------------------
  // Sentences

  /** `get_subj_pron`: the table's first pronoun when none is given, the pronoun itself, or the picked one of a comma list. */
  function SubjPron(subj: Subject, pick: nat): (r: string)
    requires InTables(subj.num, subj.pers)
    ensures ',' !in r
    ensures subj.pronoun == "" ==> r == SubjProns(subj.num, subj.pers)[0]
    ensures subj.pronoun != "" && ',' !in subj.pronoun ==> r == subj.pronoun
    ensures ',' in subj.pronoun ==> r in SplitOn(subj.pronoun, ',')
  {
    if subj.pronoun == "" then SubjProns(subj.num, subj.pers)[0]
    else if ',' !in subj.pronoun then subj.pronoun
    else
      var parts := SplitOn(subj.pronoun, ',');
      parts[pick % |parts|]
  }

  /** `SentenceOptions`, every key given. */
  datatype Options = Options(affirm: bool, shortAnswer: bool, question: bool, splitWords: bool)

  /** `SENTENCE_OPTIONS_DEFAULTS`. */
  const Defaults: Options := Options(true, false, false, true)

  /** A part of the sentence: its words when splitting, else the whole part. */
  function Part(w: string, split: bool): seq<string> {
    if split then Words(w) else [w]
  }

  /** The yes/no that opens a short answer. */
  function Prefix(o: Options): seq<string> {
    if !o.shortAnswer then []
    else if o.splitWords then [if o.affirm then "yes" else "no", ","]
    else [if o.affirm then "yes," else "no,"]
  }

  /** The parts in the order of a question (verb first) or of a statement (subject first), with the closing mark. */
  function Arrange(pre: seq<string>, subj: seq<string>, verb: seq<string>, npred: seq<string>, question: bool): seq<string> {
    if question then pre + verb + subj + npred + ["?"] else pre + subj + verb + npred + ["."]
  }

  /** The subject, verb and predicate tokens of a sentence. */
  datatype Parts = Parts(subj: seq<string>, verb: seq<string>, npred: seq<string>)

  /** The tokens of each part: the pronoun stands for the subject and the predicate is dropped in a short answer. */
  function PartsOf(subj: Subject, npred: NPred, affirm: bool, shortAnswer: bool, splitWords: bool, pick: nat): Parts
    requires InTables(subj.num, subj.pers)
  {
    Parts(Part(if shortAnswer then SubjPron(subj, pick) else subj.subj, splitWords),
          Part(Verb(subj.num, subj.pers, affirm), splitWords),
          if shortAnswer then [] else Part(npred.npred, splitWords))
  }

  /** `generate_copulative_sentence`. */
  function Copulative(subj: Subject, npred: NPred, o: Options, pick: nat): seq<string>
    requires InTables(subj.num, subj.pers)
  {
    var p := PartsOf(subj, npred, o.affirm, o.shortAnswer, o.splitWords, pick);
    Arrange(Prefix(o), p.subj, p.verb, p.npred, o.question)
  }

  /** Either order keeps the opening and the words, and ends with its mark. */
  lemma ArrangeShape(pre: seq<string>, subj: seq<string>, verb: seq<string>, npred: seq<string>, question: bool)
    ensures var r := Arrange(pre, subj, verb, npred, question);
            |r| > |pre| && r[..|pre|] == pre && r[|r| - 1] == (if question then "?" else ".")
    ensures var st := Arrange(pre, subj, verb, npred, false);
            var q := Arrange(pre, subj, verb, npred, true);
            |q| == |st| && multiset(q[..|q| - 1]) == multiset(st[..|st| - 1])
  {
    var st := Arrange(pre, subj, verb, npred, false);
    var q := Arrange(pre, subj, verb, npred, true);
    assert st[..|st| - 1] == pre + subj + verb + npred;
    assert q[..|q| - 1] == pre + verb + subj + npred;
    var r := Arrange(pre, subj, verb, npred, question);
    if question {
      assert r == pre + (verb + subj + npred + ["?"]);
    } else {
      assert r == pre + (subj + verb + npred + ["."]);
    }
  }

  /** Every sentence opens with the short answer's yes/no (none otherwise) and closes with "?" for a question and "." otherwise. */
  lemma CopulativeEnds(subj: Subject, npred: NPred, o: Options, pick: nat)
    requires InTables(subj.num, subj.pers)
    ensures var r := Copulative(subj, npred, o, pick);
            |r| > |Prefix(o)| && r[..|Prefix(o)|] == Prefix(o) && r[|r| - 1] == (if o.question then "?" else ".")
  {
    var p := PartsOf(subj, npred, o.affirm, o.shortAnswer, o.splitWords, pick);
    ArrangeShape(Prefix(o), p.subj, p.verb, p.npred, o.question);
  }

  /** Turning a statement into a question only reorders its words: the same tokens before the closing mark. */
  lemma QuestionReorders(subj: Subject, npred: NPred, affirm: bool, shortAnswer: bool, splitWords: bool, pick: nat)
    requires InTables(subj.num, subj.pers)
    ensures var st := Copulative(subj, npred, Options(affirm, shortAnswer, false, splitWords), pick);
            var q := Copulative(subj, npred, Options(affirm, shortAnswer, true, splitWords), pick);
            |q| == |st| && multiset(q[..|q| - 1]) == multiset(st[..|st| - 1])
  {
    var p := PartsOf(subj, npred, affirm, shortAnswer, splitWords, pick);
    var pre := Prefix(Options(affirm, shortAnswer, false, splitWords));
    assert Prefix(Options(affirm, shortAnswer, true, splitWords)) == pre;
    ArrangeShape(pre, p.subj, p.verb, p.npred, false);
  }

  /**
   * A short answer without splitting has four parts: "yes," or "no,", then the subject pronoun and
   * the verb (the verb first in a question), then the closing mark; the predicate is left out.
   */
  lemma ShortAnswerShape(subj: Subject, npred: NPred, o: Options, pick: nat)
    requires InTables(subj.num, subj.pers) && o.shortAnswer && !o.splitWords
    ensures var r := Copulative(subj, npred, o, pick);
            |r| == 4 && r[0] == (if o.affirm then "yes," else "no,") &&
            r[if o.question then 2 else 1] == SubjPron(subj, pick) &&
            r[if o.question then 1 else 2] == Verb(subj.num, subj.pers, o.affirm)
  {
  }

  /** With splitting, a short answer opens with two tokens: "yes" or "no", then ",". */
  lemma SplitShortAnswerPrefix(subj: Subject, npred: NPred, o: Options, pick: nat)
    requires InTables(subj.num, subj.pers) && o.shortAnswer && o.splitWords
    ensures var r := Copulative(subj, npred, o, pick);
            |r| >= 3 && r[0] == (if o.affirm then "yes" else "no") && r[1] == ","
  {
    var p := PartsOf(subj, npred, o.affirm, o.shortAnswer, o.splitWords, pick);
    var pre := [if o.affirm then "yes" else "no", ","];
    assert Prefix(o) == pre;
    ArrangeShape(pre, p.subj, p.verb, p.npred, o.question);
    var r := Copulative(subj, npred, o, pick);
    assert r[0] == r[..2][0] && r[1] == r[..2][1];
  }

  // ---------------------------------------------------------------------------------------------
  // The question sequence

  /** A character that marks a word as punctuation for the bank and the slots. */
  predicate PunctChar(c: char) {
    c == ',' || c == '?' || c == '.' || c == '!' || c == '\n'
  }

  /** `set(w).intersection(',?.!\n')` is not empty. */
  predicate Punct(w: string) {
    exists i :: 0 <= i < |w| && PunctChar(w[i])
  }

  /** The words that go into the bank: those without punctuation, in order. */
  function BankOf(ws: seq<string>): (r: seq<string>)
    ensures |r| <= |ws|
    ensures forall i :: 0 <= i < |r| ==> !Punct(r[i]) && r[i] in ws
    ensures forall i :: 0 <= i < |ws| && !Punct(ws[i]) ==> ws[i] in r
  {
    if ws == [] then []
    else
      var init := BankOf(ws[..|ws| - 1]);
      var last := ws[|ws| - 1];
      assert forall i :: 0 <= i < |ws| - 1 ==> ws[..|ws| - 1][i] == ws[i];
      init + (if Punct(last) then [] else [last])
  }

  /** The bank holds each word without punctuation as often as the list does, and no other word. */
  lemma {:induction false} BankOfCounts(ws: seq<string>)
    ensures forall w :: multiset(BankOf(ws))[w] == if Punct(w) then 0 else multiset(ws)[w]
  {
    if ws != [] {
      var init := ws[..|ws| - 1];
      BankOfCounts(init);
      assert ws == init + [ws[|ws| - 1]];
    }
  }

  /**
   * The bank keeps the order of the words: the bank of two word lists one after the other is the
   * bank of the first followed by the bank of the second.
   */
  lemma {:induction false} BankOfAppend(a: seq<string>, b: seq<string>)
    ensures BankOf(a + b) == BankOf(a) + BankOf(b)
    decreases |b|
  {
    if b == [] {
      assert a + b == a;
    } else {
      var init := b[..|b| - 1];
      assert (a + b)[..|a + b| - 1] == a + init;
      BankOfAppend(a, init);
    }
  }

  /** A single word is banked exactly when it has no punctuation. */
  lemma BankOfOne(w: string)
    ensures BankOf([w]) == if Punct(w) then [] else [w]
  {
    assert [w][..0] == [];
  }

  /** A slot shows a punctuation word and is blank otherwise. */
  function SlotOf(w: string): string {
    if Punct(w) then w else ""
  }

  function SlotsOf(ws: seq<string>): (r: seq<string>)
    ensures |r| == |ws| && forall i :: 0 <= i < |ws| ==> r[i] == SlotOf(ws[i])
  {
    seq(|ws|, i requires 0 <= i < |ws| => SlotOf(ws[i]))
  }

  /** The decimal digit of a number below ten. */
  function Digit(d: nat): char
    requires d < 10
  {
    (('0' as int) + d) as char
  }

  /** A number written in decimal, as an f-string writes it. */
  function Decimal(n: nat): (s: string)
    ensures s != [] && forall i :: 0 <= i < |s| ==> '0' <= s[i] <= '9'
    decreases n
  {
    if n < 10 then [Digit(n)] else Decimal(n / 10) + [Digit(n % 10)]
  }

  /** The number a string of decimal digits denotes. */
  function ValueOf(s: string): int {
    if s == [] then 0 else ValueOf(s[..|s| - 1]) * 10 + (s[|s| - 1] as int - '0' as int)
  }

  /** Reading back a written number gives the number, and only zero is written with a leading zero. */
  lemma {:induction false} DecimalValue(n: nat)
    ensures ValueOf(Decimal(n)) == n
    ensures Decimal(n)[0] == '0' ==> n == 0
    decreases n
  {
    if n >= 10 {
      DecimalValue(n / 10);
      var s := Decimal(n / 10) + [Digit(n % 10)];
      assert s[..|s| - 1] == Decimal(n / 10);
    }
  }

  const QuestionPrompt: string := " Form a question and a short negative answer from:\n \""

  /** The statement, the question and the capitalised short negative answer of one round. */
  function Statement(subj: Subject, npred: NPred, pick: nat): seq<string>
    requires InTables(subj.num, subj.pers)
  {
    Copulative(subj, npred, Options(true, false, false, false), pick)
  }

  function AskedQuestion(subj: Subject, npred: NPred, pick: nat): seq<string>
    requires InTables(subj.num, subj.pers)
  {
    Copulative(subj, npred, Options(true, false, true, false), pick)
  }

  function ShortAnswer(subj: Subject, npred: NPred, pick: nat): (r: seq<string>)
    requires InTables(subj.num, subj.pers)
    ensures r == ["No,", SubjPron(subj, pick), Verb(subj.num, subj.pers, false), "."]
  {
    var answer := Copulative(subj, npred, Options(false, true, false, false), pick);
    ShortAnswerShape(subj, npred, Options(false, true, false, false), pick);
    assert Cap("no,") == "No,";
    answer[0 := Cap(answer[0])]
  }

  /** The words of a statement joined by spaces. */
  lemma JoinedNonEmpty(parts: seq<string>)
    requires |parts| >= 2
    ensures Join(parts, " ") != []
  {
  }

  /** The question of round `count` of `numQ`. */
  function QuestionOf(count: nat, numQ: nat, subj: Subject, npred: NPred, pick: nat): QuestionData
    requires InTables(subj.num, subj.pers)
  {
    var statement := Statement(subj, npred, pick);
    var question := AskedQuestion(subj, npred, pick);
    var answer := ShortAnswer(subj, npred, pick);
    CopulativeEnds(subj, npred, Options(true, false, false, false), pick);
    JoinedNonEmpty(statement);
    Question(Decimal(count) + "/" + Decimal(numQ) + QuestionPrompt + Cap(Join(statement, " ")) + "\"",
             SlotsOf(question + ["\n"] + answer), BankOf(question + answer), question + answer)
  }

  /** `get_next_question` on a count already advanced: none once the count exceeds the number of questions. */
  function NextQuestion(count: nat, numQ: int, subj: Subject, npred: NPred, pick: nat): (r: Option<QuestionData>)
    requires InTables(subj.num, subj.pers)
    ensures r.None? <==> count > numQ
    ensures r.Some? ==> r.value == QuestionOf(count, numQ, subj, npred, pick)
  {
    if count > numQ then None else Some(QuestionOf(count, numQ, subj, npred, pick))
  }

  /**
   * A round's answer is the question (verb, subject, predicate, "?") then the short negative answer
   * ("No,", pronoun, negated verb, "."); the slots show its punctuation, blank the rest and break the
   * line between the two; the bank holds exactly its words without punctuation.
   */
  lemma QuestionShape(count: nat, numQ: nat, subj: Subject, npred: NPred, pick: nat)
    requires InTables(subj.num, subj.pers)
    ensures var q := QuestionOf(count, numQ, subj, npred, pick);
            q.correct == [Verb(subj.num, subj.pers, true), subj.subj, npred.npred, "?",
                          "No,", SubjPron(subj, pick), Verb(subj.num, subj.pers, false), "."] &&
            |q.slots| == |q.correct| + 1 && q.slots[4] == "\n" &&
            (forall i :: 0 <= i < 4 ==> q.slots[i] == SlotOf(q.correct[i])) &&
            (forall i :: 4 <= i < 8 ==> q.slots[i + 1] == SlotOf(q.correct[i])) &&
            BankMatches(q.bankWords, q.correct) && !q.initialMovable
  {
    var question := AskedQuestion(subj, npred, pick);
    var answer := ShortAnswer(subj, npred, pick);
    assert question == [Verb(subj.num, subj.pers, true), subj.subj, npred.npred, "?"];
    SlotsAround(question, answer);
    var q := QuestionOf(count, numQ, subj, npred, pick);
    assert q.correct == [Verb(subj.num, subj.pers, true), subj.subj, npred.npred, "?",
                         "No,", SubjPron(subj, pick), Verb(subj.num, subj.pers, false), "."];
    QuestionBank(count, numQ, subj, npred, pick);
  }

  /** The bank holds the words without punctuation, each as often as the word list has it, and nothing else. */
  ghost predicate BankMatches(bank: seq<string>, words: seq<string>) {
    (forall w :: w in bank <==> w in words && !Punct(w)) &&
    (forall w :: multiset(bank)[w] == if Punct(w) then 0 else multiset(words)[w])
  }

  /** The bank of a round holds the answer's words without punctuation, each as often as the answer has it. */
  lemma QuestionBank(count: nat, numQ: nat, subj: Subject, npred: NPred, pick: nat)
    requires InTables(subj.num, subj.pers)
    ensures var q := QuestionOf(count, numQ, subj, npred, pick);
            BankMatches(q.bankWords, q.correct)
  {
    var all := AskedQuestion(subj, npred, pick) + ShortAnswer(subj, npred, pick);
    var q := QuestionOf(count, numQ, subj, npred, pick);
    assert q.bankWords == BankOf(all) && q.correct == all;
    BankOfCounts(all);
  }

  /** The slots of a question and its answer: each word's slot, with the line break between the two. */
  lemma SlotsAround(question: seq<string>, answer: seq<string>)
    ensures var slots := SlotsOf(question + ["\n"] + answer);
            var all := question + answer;
            |slots| == |all| + 1 && slots[|question|] == "\n" &&
            (forall i :: 0 <= i < |question| ==> slots[i] == SlotOf(all[i])) &&
            (forall i :: |question| <= i < |all| ==> slots[i + 1] == SlotOf(all[i]))
  {
    var all := question + answer;
    var spaced := question + ["\n"] + answer;
    assert forall i :: |question| <= i < |all| ==> spaced[i + 1] == all[i];
    assert forall i :: 0 <= i < |question| ==> spaced[i] == all[i];
    assert Punct("\n") by { assert PunctChar("\n"[0]); }
  }

  /** `MakeQuestionSequence`: `num_q` questions; `count` advances on each good answer. */
  class MakeQuestionSequence {
    const numQ: int
    var count: int

    ghost predicate Valid()
      reads this
    {
      count >= 0
    }

    /** `num_q` defaults to 5. */
    constructor (numQ: int)
      ensures Valid() && this.numQ == numQ && count == 0
    {
      this.numQ := numQ;
      count := 0;
    }

    /** `get_next_question`, given the subject and predicate the random choice picked. */
    method GetNextQuestion(previousWasGood: bool, subj: Subject, npred: NPred, pick: nat) returns (q: Option<QuestionData>)
      requires Valid() && InTables(subj.num, subj.pers)
      modifies this
      ensures Valid() && count == old(count) + (if previousWasGood then 1 else 0)
      ensures q == NextQuestion(count, numQ, subj, npred, pick)
    {
      if previousWasGood {
        count := count + 1;
      }
      if count > numQ {
        return None;
      }
      var statement := Copulative(subj, npred, Options(true, false, false, false), pick);
      var question := Copulative(subj, npred, Options(true, false, true, false), pick);
      var shortAnswer := Copulative(subj, npred, Options(false, true, false, false), pick);
      ShortAnswerShape(subj, npred, Options(false, true, false, false), pick);
      shortAnswer := shortAnswer[0 := Cap(shortAnswer[0])];
      CopulativeEnds(subj, npred, Options(true, false, false, false), pick);
      JoinedNonEmpty(statement);
      q := Some(Question(Decimal(count) + "/" + Decimal(numQ) + QuestionPrompt + Cap(Join(statement, " ")) + "\"",
                         SlotsOf(question + ["\n"] + shortAnswer), BankOf(question + shortAnswer), question + shortAnswer));
    }
  }

  /** The number of questions a sequence asks when none is given. */
  const DefaultNumQ: int := 5

  // ---------------------------------------------------------------------------------------------
  // Statement to question

  const DefaultIntro: string := "Form a question from the following statement:\n"
  const IndexError: string := "IndexError: string index out of range"

  function Blanks(n: nat): (r: seq<string>)
    ensures |r| == n && forall i :: 0 <= i < n ==> r[i] == ""
  {
    seq(n, _ => "")
  }

  /** `statement_to_question`: a missing part raises a key error, and an all-blank split statement cannot be capitalised. */
  function StatementToQuestion(sent: map<string, string>, splitWords: bool, promptIntro: Option<string>): Result<QuestionData> {
    if "Subject" !in sent then Err("KeyError: 'Subject'")
    else if "Copula" !in sent then Err("KeyError: 'Copula'")
    else if "NPred" !in sent then Err("KeyError: 'NPred'")
    else
      var subj := Part(sent["Subject"], splitWords);
      var cop := Part(sent["Copula"], splitWords);
      var npred := Part(sent["NPred"], splitWords);
      var joined := Join(subj + cop + npred, " ");
      if joined == [] then Err(IndexError)
      else
        var intro := if promptIntro.None? || promptIntro.value == "" then DefaultIntro else promptIntro.value;
        Ok(Question(intro + Cap(joined) + ".", Blanks(|cop|) + Blanks(|subj|) + Blanks(|npred|) + ["?"],
                    subj + cop + npred, cop + subj + npred + ["?"]))
  }

  /** Words joined by a separator are empty only when there are none, or one empty one. */
  lemma JoinEmpty(parts: seq<string>, sep: string)
    requires sep != []
    ensures Join(parts, sep) == [] <==> parts == [] || (|parts| == 1 && parts[0] == [])
  {
    if |parts| >= 2 {
      assert |Join(parts, sep)| >= |sep|;
    }
  }

  /** `statement_to_question` raises exactly when a part is missing, or when splitting leaves no word at all. */
  lemma StatementToQuestionRaises(sent: map<string, string>, splitWords: bool, promptIntro: Option<string>)
    ensures StatementToQuestion(sent, splitWords, promptIntro).Err? <==>
              ("Subject" !in sent || "Copula" !in sent || "NPred" !in sent ||
               (splitWords && Words(sent["Subject"]) == [] && Words(sent["Copula"]) == [] && Words(sent["NPred"]) == []))
  {
    if "Subject" in sent && "Copula" in sent && "NPred" in sent {
      var subj := Part(sent["Subject"], splitWords);
      var cop := Part(sent["Copula"], splitWords);
      var npred := Part(sent["NPred"], splitWords);
      var all := subj + cop + npred;
      JoinEmpty(all, " ");
      if splitWords {
        WordsAreWords(sent["Subject"]);
        WordsAreWords(sent["Copula"]);
        WordsAreWords(sent["NPred"]);
        if |all| == 1 {
          assert all[0] != [] by {
            if |subj| == 1 { assert all[0] == subj[0]; }
            else if |cop| == 1 { assert all[0] == cop[0]; }
            else { assert all[0] == npred[0]; }
          }
        }
      }
    }
  }

  /**
   * The question asks for the copula, the subject and the predicate in that order, then "?"; every
   * slot is blank but the last, which shows "?"; the bank holds the same words in statement order.
   * The prompt is the intro, or the default intro when none or an empty one is given, followed by
   * the statement: the bank's words joined by spaces, capitalised, with a closing ".".
   */
  lemma StatementToQuestionShape(sent: map<string, string>, splitWords: bool, promptIntro: Option<string>)
    requires StatementToQuestion(sent, splitWords, promptIntro).Ok?
    ensures "Subject" in sent && "Copula" in sent && "NPred" in sent
    ensures var q := StatementToQuestion(sent, splitWords, promptIntro).value;
            var cop := Part(sent["Copula"], splitWords);
            var subj := Part(sent["Subject"], splitWords);
            var npred := Part(sent["NPred"], splitWords);
            q.correct == cop + subj + npred + ["?"] && q.bankWords == subj + cop + npred &&
            |q.slots| == |q.correct| && (forall i :: 0 <= i < |q.slots| - 1 ==> q.slots[i] == "") &&
            q.slots[|q.slots| - 1] == "?" && multiset(q.bankWords) + multiset{"?"} == multiset(q.correct)
    ensures var q := StatementToQuestion(sent, splitWords, promptIntro).value;
            var intro := if promptIntro.None? || promptIntro.value == "" then DefaultIntro else promptIntro.value;
            q.prompt == intro + Cap(Join(q.bankWords, " ")) + "."
  {
    var subj := Part(sent["Subject"], splitWords);
    var cop := Part(sent["Copula"], splitWords);
    var npred := Part(sent["NPred"], splitWords);
    BlanksThenMark(|cop|, |subj|, |npred|);
  }

  /** Blank runs followed by "?" are blank everywhere but at the end. */
  lemma BlanksThenMark(a: nat, b: nat, c: nat)
    ensures var slots := Blanks(a) + Blanks(b) + Blanks(c) + ["?"];
            |slots| == a + b + c + 1 && slots[|slots| - 1] == "?" && forall i :: 0 <= i < |slots| - 1 ==> slots[i] == ""
  {
    var slots := Blanks(a) + Blanks(b) + Blanks(c) + ["?"];
    assert forall i :: 0 <= i < |slots| - 1 ==> slots[i] == (Blanks(a) + Blanks(b) + Blanks(c))[i];
  }
}
