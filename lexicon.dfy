/**
 * The word-form lexicon (server/ro_form_gen/lexicon.py): entries of form, lemma, tag, negation flag
 * and usage count; an index by form and one by lemma then tag, whose lists are sorted by count; and
 * the search for the forms of a lemma whose tags best match a requested tag.
 *
 * Entries are shared between the two indexes. The model keeps them in one arena, a sequence the
 * lexicon owns, and the index lists hold arena positions, so an update through one index is seen
 * through the other exactly as with the shared entry objects.
 */
module Lexicons {
  import opened Wrappers

  // ---------------------------------------------------------------------------------------------
  // Tag similarity: `xpos_tag_matches`
  // ---------------------------------------------------------------------------------------------

  const Dash: char := '-'

  function Min(a: nat, b: nat): nat {
    if a <= b then a else b
  }

  /** Two specified symbols that differ at position i. */
  predicate ClashAt(x: string, y: string, i: nat)
    requires i < |x| && i < |y|
  {
    x[i] != Dash && y[i] != Dash && x[i] != y[i]
  }

  /** Some position both tags have (the shorter tag's length bounds `zip`) holds a clash. */
  predicate Clash(x: string, y: string) {
    exists i :: 0 <= i < Min(|x|, |y|) && ClashAt(x, y, i)
  }

  predicate AgreeAt(x: string, y: string, i: nat)
    requires i < |x| && i < |y|
  {
    x[i] == y[i] && x[i] != Dash
  }

  /** The positions below n where both tags hold the same specified symbol. */
  function Agreements(x: string, y: string, n: nat): (c: nat)
    requires n <= |x| && n <= |y|
    ensures c <= n
  {
    if n == 0 then 0 else Agreements(x, y, n - 1) + (if AgreeAt(x, y, n - 1) then 1 else 0)
  }

  /** The score of two tags: 0 when they clash, otherwise the number of agreeing specified positions. */
  function TagScore(x: string, y: string): nat {
    if Clash(x, y) then 0 else Agreements(x, y, Min(|x|, |y|))
  }

  /** `xpos_tag_matches`: the zip loop, returning 0 at the first clash. */
  method XposTagMatches(xpos: string, other: string) returns (score: nat)
    ensures score == TagScore(xpos, other)
  {
    var n := Min(|xpos|, |other|);
    score := 0;
    for i := 0 to n
      invariant score == Agreements(xpos, other, i)
      invariant forall j :: 0 <= j < i ==> !ClashAt(xpos, other, j)
    {
      var c1, c2 := xpos[i], other[i];
      if c1 == c2 && c1 != Dash {
        score := score + 1;
      } else if c1 == Dash || c2 == Dash {
      } else {
        assert ClashAt(xpos, other, i);
        return 0;
      }
    }
  }

  lemma {:induction false} AgreementsSymmetric(x: string, y: string, n: nat)
    requires n <= |x| && n <= |y|
    ensures Agreements(x, y, n) == Agreements(y, x, n)
  {
    if n > 0 {
      AgreementsSymmetric(x, y, n - 1);
    }
  }

  /** The score does not depend on which tag is the requested one, and never exceeds the shorter length. */
  lemma TagScoreSymmetric(x: string, y: string)
    ensures TagScore(x, y) == TagScore(y, x)
    ensures TagScore(x, y) <= Min(|x|, |y|)
  {
    AgreementsSymmetric(x, y, Min(|x|, |y|));
    if Clash(x, y) {
      var i :| 0 <= i < Min(|x|, |y|) && ClashAt(x, y, i);
      assert ClashAt(y, x, i);
    }
    if Clash(y, x) {
      var i :| 0 <= i < Min(|y|, |x|) && ClashAt(y, x, i);
      assert ClashAt(x, y, i);
    }
  }

  /** The number of specified positions of a tag. */
  function Specified(x: string, n: nat): (c: nat)
    requires n <= |x|
  {
    if n == 0 then 0 else Specified(x, n - 1) + (if x[n - 1] != Dash then 1 else 0)
  }

  lemma {:induction false} SelfAgreements(x: string, n: nat)
    requires n <= |x|
    ensures Agreements(x, x, n) == Specified(x, n)
  {
    if n > 0 {
      SelfAgreements(x, n - 1);
    }
  }

  /** A tag never clashes with itself, so it scores the number of its specified positions against itself. */
  lemma SelfScore(x: string)
    ensures TagScore(x, x) == Specified(x, |x|)
  {
    SelfAgreements(x, |x|);
  }

  // ---------------------------------------------------------------------------------------------
  // Entries: `LexiconEntry`
  // ---------------------------------------------------------------------------------------------

  /** A lexicon entry; the count is the number of times the form was seen with this lemma and tag. */
  datatype Entry = Entry(form: string, lem: string, xpos: string, isNeg: bool, count: int)

  predicate StartsWith(s: string, prefix: string) {
    |prefix| <= |s| && s[..|prefix|] == prefix
  }

  function Clamp(i: int, n: nat): nat {
    if i < 0 then 0 else if i > n then n else i
  }

  /** Python's `s[a:b]` for non-negative bounds: both are clamped to the length. */
  function Slice(s: string, a: nat, b: nat): (r: string)
    ensures |r| <= |s|
  {
    var lo := Clamp(a, |s|);
    var hi := Clamp(b, |s|);
    if lo <= hi then s[lo..hi] else []
  }

  const NegPrefix: string := "ne"
  const NegMatchLen: nat := 3

  /** A form that looks like the negation of its lemma: "ne" before it, or "ne" before the lemma's first three characters. */
  predicate NegPrefixed(form: string, lem: string) {
    StartsWith(form, NegPrefix) &&
    (!StartsWith(lem, NegPrefix) || Slice(form, |NegPrefix|, |NegPrefix| + NegMatchLen) == Slice(lem, 0, NegMatchLen))
  }

  /** `LexiconEntry(...)` with its `__post_init__`: the negation flag is raised for a negated-looking form, never cleared. */
  function NewEntry(form: string, lem: string, xpos: string, isNeg: bool, count: int): (e: Entry)
    ensures e.form == form && e.lem == lem && e.xpos == xpos && e.count == count
    ensures e.isNeg <==> isNeg || NegPrefixed(form, lem)
  {
    Entry(form, lem, xpos, isNeg || NegPrefixed(form, lem), count)
  }

  const Tab: char := '\t'

  /** The position of the first tab at or after i, or |s|. */
  function NextTab(s: string, i: nat): (j: nat)
    requires i <= |s|
    ensures i <= j <= |s| && (j < |s| ==> s[j] == Tab) && forall k :: i <= k < j ==> s[k] != Tab
    decreases |s| - i
  {
    if i == |s| || s[i] == Tab then i else NextTab(s, i + 1)
  }

  /** `s.split('\t')`: the fields between tabs; an empty line is one empty field. */
  function SplitTabs(s: string): (fields: seq<string>)
    ensures |fields| >= 1
    ensures forall k, j :: 0 <= k < |fields| && 0 <= j < |fields[k]| ==> fields[k][j] != Tab
    decreases |s|
  {
    var j := NextTab(s, 0);
    if j == |s| then [s] else [s[..j]] + SplitTabs(s[j + 1..])
  }

  /** The fields joined back with tabs. */
  function JoinTabs(fields: seq<string>): string
    requires |fields| >= 1
  {
    if |fields| == 1 then fields[0] else fields[0] + [Tab] + JoinTabs(fields[1..])
  }

  /** Splitting loses nothing: the fields joined with tabs give the line back. */
  lemma SplitJoin(s: string)
    ensures JoinTabs(SplitTabs(s)) == s
    decreases |s|
  {
    var j := NextTab(s, 0);
    if j < |s| {
      SplitJoin(s[j + 1..]);
      assert s == s[..j] + [Tab] + s[j + 1..];
    }
  }

  /**
   * `LexiconEntry.from_line`: the first three tab-separated fields are form, lemma and tag; a lemma
   * of "=" stands for the form. Fewer than three fields raise on unpacking, and an empty field raises.
   */
  function FromLine(line: string): (r: Result<Entry>)
    ensures |SplitTabs(line)| < 3 ==> r.Err?
    ensures |SplitTabs(line)| >= 3 ==>
      var f := SplitTabs(line);
      var lem := if f[1] == "=" then f[0] else f[1];
      (r.Ok? <==> f[0] != "" && lem != "" && f[2] != "") &&
      (r.Ok? ==> r.value.form == f[0] && r.value.lem == lem && r.value.xpos == f[2] && r.value.count == 0 &&
                 (r.value.isNeg <==> NegPrefixed(f[0], lem)))
  {
    var fields := SplitTabs(line);
    if |fields| < 3 then Err("not enough values to unpack")
    else
      var form, lem0, xpos := fields[0], fields[1], fields[2];
      var lem := if lem0 == "=" then form else lem0;
      if form == "" || lem == "" || xpos == "" then Err("Empty entry in line")
      else Ok(NewEntry(form, lem, xpos, false, 0))
  }

  /** A parsed entry has no empty field, and its lemma is never "=" unless the form is. */
  lemma FromLineFields(line: string)
    requires FromLine(line).Ok?
    ensures var e := FromLine(line).value;
      e.form != "" && e.lem != "" && e.xpos != "" && (e.lem == "=" ==> e.form == "=")
  {
  }

  // ---------------------------------------------------------------------------------------------
  // Stable sorting by an integer key (Python's `list.sort(key=...)`)
  // ---------------------------------------------------------------------------------------------

  predicate SortedBy<T>(s: seq<T>, key: T -> int) {
    forall i, j :: 0 <= i < j < |s| ==> key(s[i]) <= key(s[j])
  }

  /** The elements of s with key value v, in their order in s. */
  function WithKey<T>(s: seq<T>, key: T -> int, v: int): (r: seq<T>)
    ensures |r| <= |s|
  {
    if s == [] then [] else (if key(s[0]) == v then [s[0]] else []) + WithKey(s[1..], key, v)
  }

  /** The stable sort: later elements are sorted first, and each earlier one goes in front of its equals. */
  function SortBy<T>(s: seq<T>, key: T -> int): (r: seq<T>)
    ensures multiset(r) == multiset(s) && |r| == |s|
  {
    if s == [] then []
    else
      assert s == [s[0]] + s[1..];
      InsertFront(s[0], SortBy(s[1..], key), key)
  }

  /** x placed in front of the first element whose key is at least its own. */
  function InsertFront<T>(x: T, s: seq<T>, key: T -> int): (r: seq<T>)
    ensures multiset(r) == multiset(s) + multiset{x}
    ensures |r| == |s| + 1
  {
    if s == [] || key(x) <= key(s[0]) then [x] + s
    else
      assert s == [s[0]] + s[1..];
      [s[0]] + InsertFront(x, s[1..], key)
  }

  lemma {:induction false} InsertFrontSorted<T>(x: T, s: seq<T>, key: T -> int)
    requires SortedBy(s, key)
    ensures SortedBy(InsertFront(x, s, key), key)
    ensures forall k :: 0 <= k < |InsertFront(x, s, key)| ==>
      InsertFront(x, s, key)[k] == x || InsertFront(x, s, key)[k] in s
  {
    if s != [] && key(x) > key(s[0]) {
      InsertFrontSorted(x, s[1..], key);
      var t := InsertFront(x, s[1..], key);
      forall k | 0 <= k < |t| ensures key(s[0]) <= key(t[k]) {
        if t[k] != x {
          assert t[k] in s[1..];
        }
      }
    }
  }

  lemma {:induction false} InsertFrontWithKey<T>(x: T, s: seq<T>, key: T -> int, v: int)
    requires SortedBy(s, key)
    ensures WithKey(InsertFront(x, s, key), key, v) == WithKey([x] + s, key, v)
  {
    if s != [] && key(x) > key(s[0]) {
      InsertFrontWithKey(x, s[1..], key, v);
      var t := InsertFront(x, s[1..], key);
      assert InsertFront(x, s, key) == [s[0]] + t;
      assert ([s[0]] + t)[1..] == t;
      assert ([x] + s)[1..] == s;
      assert ([x] + s[1..])[1..] == s[1..];
      if key(x) == v {
        // s[0] has a smaller key than x, so it is not among the elements with key v
        assert key(s[0]) != v;
        forall k | 0 <= k < |s[1..]| ensures key(s[1..][k]) >= key(s[0]) {
        }
      }
    }
  }

  /**
   * `list.sort(key=key)`: the result is ordered by key, is a permutation of the input, and keeps
   * the input order among elements with equal keys.
   */
  lemma {:induction false} SortBySpec<T>(s: seq<T>, key: T -> int)
    ensures SortedBy(SortBy(s, key), key)
    ensures multiset(SortBy(s, key)) == multiset(s)
    ensures forall v :: WithKey(SortBy(s, key), key, v) == WithKey(s, key, v)
  {
    SortBySorted(s, key);
    forall v ensures WithKey(SortBy(s, key), key, v) == WithKey(s, key, v) {
      SortByStable(s, key, v);
    }
  }

  lemma {:induction false} SortBySorted<T>(s: seq<T>, key: T -> int)
    ensures SortedBy(SortBy(s, key), key)
  {
    if s != [] {
      SortBySorted(s[1..], key);
      InsertFrontSorted(s[0], SortBy(s[1..], key), key);
    }
  }

  lemma {:induction false} SortByStable<T>(s: seq<T>, key: T -> int, v: int)
    ensures WithKey(SortBy(s, key), key, v) == WithKey(s, key, v)
  {
    if s != [] {
      SortByStable(s[1..], key, v);
      SortBySorted(s[1..], key);
      InsertFrontWithKey(s[0], SortBy(s[1..], key), key, v);
      assert ([s[0]] + SortBy(s[1..], key))[1..] == SortBy(s[1..], key);
      assert ([s[0]] + s[1..]) == s;
    }
  }

  // ---------------------------------------------------------------------------------------------
  // Insertion-ordered indexes of entry positions
  // ---------------------------------------------------------------------------------------------

  /** A dictionary from keys to lists of arena positions, with its keys in insertion order. */
  datatype OrderedIndex = OrderedIndex(keys: seq<string>, lists: map<string, seq<nat>>)

  const EmptyIndex: OrderedIndex := OrderedIndex([], map[])

  /** The keys are distinct and are exactly the dictionary's keys. */
  ghost predicate WellFormed(ix: OrderedIndex) {
    (forall a, b :: 0 <= a < b < |ix.keys| ==> ix.keys[a] != ix.keys[b]) &&
    (forall j :: 0 <= j < |ix.keys| ==> ix.keys[j] in ix.lists)
  }

  /** Every dictionary key is in the key order (the converse of the second half of WellFormed). */
  ghost predicate KeysExact(ix: OrderedIndex) {
    forall k :: k in ix.lists ==> k in ix.keys
  }

  /** `d[k].append(i)` on a `defaultdict(list)`: a new key goes last in the key order. */
  function Append(ix: OrderedIndex, k: string, i: nat): (r: OrderedIndex)
    ensures r.lists == ix.lists[k := (if k in ix.lists then ix.lists[k] else []) + [i]]
  {
    if k in ix.lists then OrderedIndex(ix.keys, ix.lists[k := ix.lists[k] + [i]])
    else
      assert [] + [i] == [i];
      OrderedIndex(ix.keys + [k], ix.lists[k := [i]])
  }

  /** Appending keeps the keys distinct and in step with the dictionary. */
  lemma AppendWellFormed(ix: OrderedIndex, k: string, i: nat)
    requires WellFormed(ix) && KeysExact(ix)
    ensures WellFormed(Append(ix, k, i)) && KeysExact(Append(ix, k, i))
  {
  }

  /** The sort key of `sort_lists`: the negated count, so the most used entries come first. */
  function ByCount(entries: seq<Entry>): nat -> int {
    (i: nat) => if i < |entries| then -entries[i].count else 0
  }

  /** Every list of the index sorted by the key. */
  function SortIndex(ix: OrderedIndex, key: nat -> int): (r: OrderedIndex)
    ensures r.keys == ix.keys && r.lists.Keys == ix.lists.Keys
    ensures forall k :: k in r.lists ==> SortedBy(r.lists[k], key) && multiset(r.lists[k]) == multiset(ix.lists[k])
  {
    var r := OrderedIndex(ix.keys, map k | k in ix.lists :: SortBy(ix.lists[k], key));
    forall k | k in r.lists
      ensures SortedBy(r.lists[k], key) && multiset(r.lists[k]) == multiset(ix.lists[k])
    {
      SortBySpec(ix.lists[k], key);
    }
    r
  }

  predicate InRange(ids: seq<nat>, n: nat) {
    forall k :: 0 <= k < |ids| ==> ids[k] < n
  }

  /** The positions below n of the entries with the given form, in arena order. */
  function FormIds(entries: seq<Entry>, f: string, n: nat): (ids: seq<nat>)
    requires n <= |entries|
    ensures InRange(ids, n)
  {
    if n == 0 then []
    else FormIds(entries, f, n - 1) + (if entries[n - 1].form == f then [n - 1] else [])
  }

  /** The positions below n of the entries with the given lemma and tag, in arena order. */
  function LemmaIds(entries: seq<Entry>, l: string, x: string, n: nat): (ids: seq<nat>)
    requires n <= |entries|
    ensures InRange(ids, n)
  {
    if n == 0 then []
    else LemmaIds(entries, l, x, n - 1) + (if entries[n - 1].lem == l && entries[n - 1].xpos == x then [n - 1] else [])
  }

  /** Each entry with the form occurs once among its positions, and no other entry does. */
  lemma {:induction false} FormIdsCount(entries: seq<Entry>, f: string, n: nat, i: nat)
    requires n <= |entries|
    ensures multiset(FormIds(entries, f, n))[i] == (if i < n && entries[i].form == f then 1 else 0)
  {
    if n > 0 {
      var prev: seq<nat> := FormIds(entries, f, n - 1);
      var last: seq<nat> := if entries[n - 1].form == f then [n - 1] else [];
      var want: nat := if i < n && entries[i].form == f then 1 else 0;
      FormIdsCount(entries, f, n - 1, i);
      assert FormIds(entries, f, n) == prev + last;
      assert multiset(prev + last) == multiset(prev) + multiset(last);
      assert multiset(last)[i] == (if i == n - 1 && entries[n - 1].form == f then 1 else 0);
      assert multiset(prev)[i] == (if i < n - 1 && entries[i].form == f then 1 else 0);
      assert multiset(prev)[i] + multiset(last)[i] == want;
    }
  }

  /** Each entry with the lemma and tag occurs once among its positions, and no other entry does. */
  lemma {:induction false} LemmaIdsCount(entries: seq<Entry>, l: string, x: string, n: nat, i: nat)
    requires n <= |entries|
    ensures multiset(LemmaIds(entries, l, x, n))[i] == (if i < n && entries[i].lem == l && entries[i].xpos == x then 1 else 0)
  {
    if n > 0 {
      var prev: seq<nat> := LemmaIds(entries, l, x, n - 1);
      LemmaIdsCount(entries, l, x, n - 1, i);
      assert multiset(prev)[i] == (if i < n - 1 && entries[i].lem == l && entries[i].xpos == x then 1 else 0);
      if entries[n - 1].lem == l && entries[n - 1].xpos == x {
        var last: seq<nat> := [n - 1];
        assert LemmaIds(entries, l, x, n) == prev + last;
        assert multiset(prev + last) == multiset(prev) + multiset(last);
      } else {
        assert LemmaIds(entries, l, x, n) == prev;
      }
    }
  }

  /** The form index as the constructor's loop leaves it after the first n entries. */
  function FormIndex(entries: seq<Entry>, n: nat): OrderedIndex
    requires n <= |entries|
  {
    if n == 0 then EmptyIndex else Append(FormIndex(entries, n - 1), entries[n - 1].form, n - 1)
  }

  /** The tag index of one lemma, or an empty one. */
  function TagsOf(d: map<string, OrderedIndex>, l: string): OrderedIndex {
    if l in d then d[l] else EmptyIndex
  }

  /** The lemma index as the constructor's loop leaves it after the first n entries. */
  function LemmaIndex(entries: seq<Entry>, n: nat): map<string, OrderedIndex>
    requires n <= |entries|
  {
    if n == 0 then map[] else AddToLemmas(LemmaIndex(entries, n - 1), entries[n - 1], n - 1)
  }

  /** `lemma_dict[e.lemma][e.xpos].append(i)` on the nested `defaultdict`. */
  function AddToLemmas(d: map<string, OrderedIndex>, e: Entry, i: nat): (d': map<string, OrderedIndex>)
    ensures d'.Keys == d.Keys + {e.lem}
    ensures d'[e.lem] == Append(TagsOf(d, e.lem), e.xpos, i)
    ensures forall l :: l in d && l != e.lem ==> d'[l] == d[l]
  {
    d[e.lem := Append(TagsOf(d, e.lem), e.xpos, i)]
  }

  /**
   * The form index holds, for every form seen, the positions of the entries with that form (in any
   * order), and nothing else.
   */
  ghost predicate FormIndexed(entries: seq<Entry>, ix: OrderedIndex) {
    WellFormed(ix) && NonEmptyLists(ix.lists) && ListsForms(entries, ix.lists) &&
    (forall i :: 0 <= i < |entries| ==> entries[i].form in ix.keys)
  }

  ghost predicate NonEmptyLists(lists: map<string, seq<nat>>) {
    forall k :: k in lists ==> lists[k] != []
  }

  /** Each list holds every position of an entry with its form once, and no other position. */
  ghost predicate ListsForms(entries: seq<Entry>, lists: map<string, seq<nat>>) {
    forall f, i: nat {:trigger multiset(lists[f])[i]} | f in lists :: multiset(lists[f])[i] == (if i < |entries| && entries[i].form == f then 1 else 0)
  }

  /** Each list holds every position of an entry with lemma l and its tag once, and no other position. */
  ghost predicate ListsTags(entries: seq<Entry>, l: string, lists: map<string, seq<nat>>) {
    forall x, i: nat {:trigger multiset(lists[x])[i]} | x in lists ::
      multiset(lists[x])[i] == (if i < |entries| && entries[i].lem == l && entries[i].xpos == x then 1 else 0)
  }

  lemma FormCountAt(entries: seq<Entry>, lists: map<string, seq<nat>>, f: string, i: nat)
    requires ListsForms(entries, lists) && f in lists
    ensures multiset(lists[f])[i] == if i < |entries| && entries[i].form == f then 1 else 0
  {
  }

  lemma TagCountAt(entries: seq<Entry>, l: string, lists: map<string, seq<nat>>, x: string, i: nat)
    requires ListsTags(entries, l, lists) && x in lists
    ensures multiset(lists[x])[i] == if i < |entries| && entries[i].lem == l && entries[i].xpos == x then 1 else 0
  {
  }

  /** The tag index of lemma l holds, for every tag seen with l, the positions of those entries. */
  ghost predicate TagsIndexed(entries: seq<Entry>, l: string, ix: OrderedIndex) {
    WellFormed(ix) && ix.keys != [] && NonEmptyLists(ix.lists) && ListsTags(entries, l, ix.lists) &&
    (forall i :: 0 <= i < |entries| && entries[i].lem == l ==> entries[i].xpos in ix.keys)
  }

  ghost predicate LemmaIndexed(entries: seq<Entry>, d: map<string, OrderedIndex>) {
    (forall l :: l in d ==> TagsIndexed(entries, l, d[l])) &&
    (forall i :: 0 <= i < |entries| ==> entries[i].lem in d)
  }

  lemma {:induction false} NoFormIds(entries: seq<Entry>, f: string, n: nat)
    requires n <= |entries| && forall i :: 0 <= i < n ==> entries[i].form != f
    ensures FormIds(entries, f, n) == []
  {
    if n > 0 {
      NoFormIds(entries, f, n - 1);
    }
  }

  lemma {:induction false} NoLemmaIds(entries: seq<Entry>, l: string, x: string, n: nat)
    requires n <= |entries| && forall i :: 0 <= i < n ==> entries[i].lem != l || entries[i].xpos != x
    ensures LemmaIds(entries, l, x, n) == []
  {
    if n > 0 {
      NoLemmaIds(entries, l, x, n - 1);
    }
  }

  /** The constructor's form loop: after n entries, each form seen maps to its positions in arena order. */
  lemma {:induction false} FormIndexSpec(entries: seq<Entry>, n: nat)
    requires n <= |entries|
    ensures WellFormed(FormIndex(entries, n)) && KeysExact(FormIndex(entries, n))
    ensures forall f :: f in FormIndex(entries, n).lists ==>
      FormIndex(entries, n).lists[f] == FormIds(entries, f, n) && FormIndex(entries, n).lists[f] != []
    ensures forall i :: 0 <= i < n ==> entries[i].form in FormIndex(entries, n).lists
  {
    if n > 0 {
      FormIndexSpec(entries, n - 1);
      FormIndexStep(entries, n, FormIndex(entries, n - 1));
    }
  }

  lemma FormIndexStep(entries: seq<Entry>, n: nat, prev: OrderedIndex)
    requires 0 < n <= |entries| && prev == FormIndex(entries, n - 1)
    requires WellFormed(prev) && KeysExact(prev)
    requires forall f :: f in prev.lists ==> prev.lists[f] == FormIds(entries, f, n - 1) && prev.lists[f] != []
    requires forall i :: 0 <= i < n - 1 ==> entries[i].form in prev.lists
    ensures WellFormed(FormIndex(entries, n)) && KeysExact(FormIndex(entries, n))
    ensures forall f :: f in FormIndex(entries, n).lists ==>
      FormIndex(entries, n).lists[f] == FormIds(entries, f, n) && FormIndex(entries, n).lists[f] != []
    ensures forall i :: 0 <= i < n ==> entries[i].form in FormIndex(entries, n).lists
  {
    var k := entries[n - 1].form;
    var ix := Append(prev, k, n - 1);
    AppendWellFormed(prev, k, n - 1);
    assert FormIndex(entries, n) == ix;
    assert WellFormed(ix) && KeysExact(ix);
    assert forall i :: 0 <= i < n ==> entries[i].form in ix.lists by {
      forall i | 0 <= i < n ensures entries[i].form in ix.lists {
        if i < n - 1 {
          assert entries[i].form in prev.lists;
        }
      }
    }
    FormIndexLists(entries, n, prev, k);
  }

  lemma FormIndexLists(entries: seq<Entry>, n: nat, prev: OrderedIndex, k: string)
    requires 0 < n <= |entries| && k == entries[n - 1].form
    requires forall f :: f in prev.lists ==> prev.lists[f] == FormIds(entries, f, n - 1) && prev.lists[f] != []
    requires forall i :: 0 <= i < n - 1 ==> entries[i].form in prev.lists
    ensures forall f :: f in Append(prev, k, n - 1).lists ==>
      Append(prev, k, n - 1).lists[f] == FormIds(entries, f, n) && Append(prev, k, n - 1).lists[f] != []
  {
    var ix := Append(prev, k, n - 1);
    if k !in prev.lists {
      NoFormIds(entries, k, n - 1);
    }
    forall f | f in ix.lists
      ensures ix.lists[f] == FormIds(entries, f, n) && ix.lists[f] != []
    {
      if f != k {
        assert ix.lists[f] == prev.lists[f];
      }
    }
  }

  /** The tag index of one lemma after one more entry with that lemma. */
  lemma TagsStep(entries: seq<Entry>, m: nat, ix: OrderedIndex)
    requires m < |entries|
    requires WellFormed(ix) && KeysExact(ix)
    requires forall x :: x in ix.lists ==> ix.lists[x] == LemmaIds(entries, entries[m].lem, x, m) && ix.lists[x] != []
    requires forall i :: 0 <= i < m && entries[i].lem == entries[m].lem ==> entries[i].xpos in ix.lists
    ensures TagsListed(entries, entries[m].lem, m + 1, Append(ix, entries[m].xpos, m))
  {
    var e := entries[m];
    var ix' := Append(ix, e.xpos, m);
    AppendWellFormed(ix, e.xpos, m);
    assert e.xpos in ix'.keys;
    TagsLists(entries, m, ix);
  }

  lemma TagsLists(entries: seq<Entry>, m: nat, ix: OrderedIndex)
    requires m < |entries|
    requires forall x :: x in ix.lists ==> ix.lists[x] == LemmaIds(entries, entries[m].lem, x, m) && ix.lists[x] != []
    requires forall i :: 0 <= i < m && entries[i].lem == entries[m].lem ==> entries[i].xpos in ix.lists
    ensures forall x :: x in Append(ix, entries[m].xpos, m).lists ==>
      Append(ix, entries[m].xpos, m).lists[x] == LemmaIds(entries, entries[m].lem, x, m + 1) &&
      Append(ix, entries[m].xpos, m).lists[x] != []
  {
    var e := entries[m];
    var ix' := Append(ix, e.xpos, m);
    if e.xpos !in ix.lists {
      NoLemmaIds(entries, e.lem, e.xpos, m);
    }
    forall x | x in ix'.lists
      ensures ix'.lists[x] == LemmaIds(entries, e.lem, x, m + 1) && ix'.lists[x] != []
    {
      if x != e.xpos {
        assert ix'.lists[x] == ix.lists[x];
      } else {
        assert ix'.lists[x] == LemmaIds(entries, e.lem, x, m) + [m];
      }
    }
  }

  ghost predicate LemmasSeen(entries: seq<Entry>, n: nat, d: map<string, OrderedIndex>)
    requires n <= |entries|
  {
    forall i :: 0 <= i < n ==> entries[i].lem in d && entries[i].xpos in d[entries[i].lem].lists
  }

  /** The tag index of lemma l lists, for every tag it holds, the positions below n of that lemma and tag. */
  ghost predicate TagsListed(entries: seq<Entry>, l: string, n: nat, ix: OrderedIndex)
    requires n <= |entries|
  {
    WellFormed(ix) && KeysExact(ix) && ix.keys != [] &&
    forall x :: x in ix.lists ==> ix.lists[x] == LemmaIds(entries, l, x, n) && ix.lists[x] != []
  }

  ghost predicate LemmaListsUpTo(entries: seq<Entry>, n: nat, d: map<string, OrderedIndex>)
    requires n <= |entries|
  {
    forall l :: l in d ==> TagsListed(entries, l, n, d[l])
  }

  /** The constructor's lemma loop: after n entries, each lemma seen maps to its tags and their positions. */
  lemma {:induction false} LemmaIndexSpec(entries: seq<Entry>, n: nat)
    requires n <= |entries|
    ensures LemmaListsUpTo(entries, n, LemmaIndex(entries, n))
    ensures LemmasSeen(entries, n, LemmaIndex(entries, n))
  {
    if n > 0 {
      var m: nat := n - 1;
      LemmaIndexSpec(entries, m);
      LemmaListsStep(entries, m, LemmaIndex(entries, m));
      LemmasSeenStep(entries, m, LemmaIndex(entries, m));
    }
  }

  lemma LemmaListsStep(entries: seq<Entry>, m: nat, d: map<string, OrderedIndex>)
    requires m < |entries|
    requires LemmaListsUpTo(entries, m, d) && LemmasSeen(entries, m, d)
    ensures LemmaListsUpTo(entries, m + 1, AddToLemmas(d, entries[m], m))
  {
    var e := entries[m];
    var d' := AddToLemmas(d, e, m);
    OwnLemmaStep(entries, m, d);
    forall l | l in d' && l != e.lem
      ensures TagsListed(entries, l, m + 1, d'[l])
    {
      forall x | x in d[l].lists ensures d[l].lists[x] == LemmaIds(entries, l, x, m + 1) {
        assert LemmaIds(entries, l, x, m + 1) == LemmaIds(entries, l, x, m) + [];
      }
    }
  }

  lemma OwnLemmaStep(entries: seq<Entry>, m: nat, d: map<string, OrderedIndex>)
    requires m < |entries|
    requires LemmaListsUpTo(entries, m, d) && LemmasSeen(entries, m, d)
    ensures TagsListed(entries, entries[m].lem, m + 1, Append(TagsOf(d, entries[m].lem), entries[m].xpos, m))
  {
    var e := entries[m];
    var ix := TagsOf(d, e.lem);
    if e.lem !in d {
      forall i | 0 <= i < m ensures entries[i].lem != e.lem {
        assert entries[i].lem in d;
      }
      assert ix == EmptyIndex;
    } else {
      assert ix == d[e.lem];
    }
    TagsStep(entries, m, ix);
  }

  lemma LemmasSeenStep(entries: seq<Entry>, m: nat, d: map<string, OrderedIndex>)
    requires m < |entries|
    requires LemmasSeen(entries, m, d)
    ensures LemmasSeen(entries, m + 1, AddToLemmas(d, entries[m], m))
  {
    var e := entries[m];
    var d' := AddToLemmas(d, e, m);
    forall i | 0 <= i < m + 1
      ensures entries[i].lem in d' && entries[i].xpos in d'[entries[i].lem].lists
    {
      if i < m && entries[i].lem != e.lem {
        assert d'[entries[i].lem] == d[entries[i].lem];
      }
    }
  }

  lemma {:induction false} FormIdsSame(a: seq<Entry>, b: seq<Entry>, f: string, n: nat)
    requires n <= |a| == |b| && forall i :: 0 <= i < |a| ==> a[i].form == b[i].form
    ensures FormIds(a, f, n) == FormIds(b, f, n)
  {
    if n > 0 {
      FormIdsSame(a, b, f, n - 1);
    }
  }

  lemma {:induction false} LemmaIdsSame(a: seq<Entry>, b: seq<Entry>, l: string, x: string, n: nat)
    requires n <= |a| == |b| && forall i :: 0 <= i < |a| ==> a[i].lem == b[i].lem && a[i].xpos == b[i].xpos
    ensures LemmaIds(a, l, x, n) == LemmaIds(b, l, x, n)
  {
    if n > 0 {
      LemmaIdsSame(a, b, l, x, n - 1);
    }
  }

  /** Entries that differ only in their counts are indexed by the same index. */
  lemma IndexedSameKeys(a: seq<Entry>, b: seq<Entry>, ix: OrderedIndex, d: map<string, OrderedIndex>)
    requires |a| == |b| && forall i :: 0 <= i < |a| ==> a[i] == b[i].(count := a[i].count)
    requires FormIndexed(a, ix) && LemmaIndexed(a, d)
    ensures FormIndexed(b, ix) && LemmaIndexed(b, d)
  {
    forall i | 0 <= i < |b| ensures b[i].form == a[i].form && b[i].lem == a[i].lem && b[i].xpos == a[i].xpos {
      assert a[i] == b[i].(count := a[i].count);
    }
    forall f, i: nat | f in ix.lists
      ensures multiset(ix.lists[f])[i] == (if i < |b| && b[i].form == f then 1 else 0)
    {
      FormCountAt(a, ix.lists, f, i);
    }
    forall l | l in d ensures TagsIndexed(b, l, d[l]) {
      forall x, i: nat | x in d[l].lists
        ensures multiset(d[l].lists[x])[i] == (if i < |b| && b[i].lem == l && b[i].xpos == x then 1 else 0)
      {
        assert TagsIndexed(a, l, d[l]);
        TagCountAt(a, l, d[l].lists, x, i);
      }
    }
  }

  // ---------------------------------------------------------------------------------------------
  // Filtering and concatenating position lists
  // ---------------------------------------------------------------------------------------------

  /** `[e for e in entries if keep(e)]` over a list of positions. */
  function Where(entries: seq<Entry>, ids: seq<nat>, keep: Entry -> bool): (r: seq<nat>)
    requires InRange(ids, |entries|)
    ensures InRange(r, |entries|)
    ensures forall i :: i in r ==> i in ids && keep(entries[i])
  {
    if ids == [] then []
    else
      var last := ids[|ids| - 1];
      Where(entries, ids[..|ids| - 1], keep) + (if keep(entries[last]) then [last] else [])
  }

  /** Filtering keeps every occurrence of a kept entry and drops every other one. */
  lemma {:induction false} WhereCount(entries: seq<Entry>, ids: seq<nat>, keep: Entry -> bool)
    requires InRange(ids, |entries|)
    ensures forall i: nat :: i < |entries| ==>
      multiset(Where(entries, ids, keep))[i] == (if keep(entries[i]) then multiset(ids)[i] else 0)
  {
    if ids != [] {
      var init := ids[..|ids| - 1];
      WhereCount(entries, init, keep);
      assert ids == init + [ids[|ids| - 1]];
    }
  }

  /** Filtering keeps the order of what it keeps. */
  lemma {:induction false} WhereSorted(entries: seq<Entry>, ids: seq<nat>, keep: Entry -> bool, key: nat -> int)
    requires InRange(ids, |entries|) && SortedBy(ids, key)
    ensures SortedBy(Where(entries, ids, keep), key)
  {
    if ids != [] {
      var init := ids[..|ids| - 1];
      var last := ids[|ids| - 1];
      WhereSorted(entries, init, keep, key);
      var w := Where(entries, init, keep);
      forall k | 0 <= k < |w| ensures key(w[k]) <= key(last) {
        assert w[k] in init;
      }
    }
  }

  /** The lists of the given keys, concatenated in key order. */
  function Flatten(keys: seq<string>, lists: map<string, seq<nat>>): seq<nat>
    requires forall k :: k in keys ==> k in lists
  {
    if keys == [] then [] else Flatten(keys[..|keys| - 1], lists) + lists[keys[|keys| - 1]]
  }

  lemma {:induction false} FlattenMember(keys: seq<string>, lists: map<string, seq<nat>>, i: nat)
    requires forall k :: k in keys ==> k in lists
    ensures i in Flatten(keys, lists) <==> exists k :: 0 <= k < |keys| && i in lists[keys[k]]
  {
    if keys != [] {
      var init := keys[..|keys| - 1];
      FlattenMember(init, lists, i);
      if i in Flatten(keys, lists) && i !in lists[keys[|keys| - 1]] {
        var k :| 0 <= k < |init| && i in lists[init[k]];
        assert init[k] == keys[k];
      }
      if exists k :: 0 <= k < |keys| && i in lists[keys[k]] {
        var k :| 0 <= k < |keys| && i in lists[keys[k]];
        if k < |keys| - 1 {
          assert init[k] == keys[k];
        }
      }
    }
  }

  lemma FlattenInRange(keys: seq<string>, lists: map<string, seq<nat>>, n: nat)
    requires forall k :: k in keys ==> k in lists && InRange(lists[k], n)
    ensures InRange(Flatten(keys, lists), n)
  {
    forall j | 0 <= j < |Flatten(keys, lists)| ensures Flatten(keys, lists)[j] < n {
      var i := Flatten(keys, lists)[j];
      FlattenMember(keys, lists, i);
      var k :| 0 <= k < |keys| && i in lists[keys[k]];
    }
  }

  /** Each entry whose form is among the keys occurs once in the positions, and nothing else does. */
  ghost predicate CountsForms(entries: seq<Entry>, ids: seq<nat>, keys: seq<string>) {
    forall i: nat :: multiset(ids)[i] == (if i < |entries| && entries[i].form in keys then 1 else 0)
  }

  lemma CountsStep(entries: seq<Entry>, flat: seq<nat>, list: seq<nat>, prev: seq<string>, f: string)
    requires CountsForms(entries, flat, prev) && f !in prev
    requires CountsForms(entries, list, [f])
    ensures CountsForms(entries, flat + list, prev + [f])
  {
    forall i: nat
      ensures multiset(flat + list)[i] == (if i < |entries| && entries[i].form in prev + [f] then 1 else 0)
    {
      assert multiset(flat + list)[i] == multiset(flat)[i] + multiset(list)[i];
    }
  }

  lemma FormListCounts(entries: seq<Entry>, lists: map<string, seq<nat>>, f: string)
    requires f in lists && ListsForms(entries, lists)
    ensures CountsForms(entries, lists[f], [f])
  {
  }

  /** Over the first k keys of a form index, each entry whose form is among them occurs once. */
  lemma {:induction false} FlattenPrefixCount(entries: seq<Entry>, ix: OrderedIndex, k: nat)
    requires FormIndexed(entries, ix) && k <= |ix.keys|
    ensures CountsForms(entries, Flatten(ix.keys[..k], ix.lists), ix.keys[..k])
  {
    if k > 0 {
      FlattenPrefixCount(entries, ix, k - 1);
      var f := ix.keys[k - 1];
      var prev := ix.keys[..k - 1];
      assert ix.keys[..k] == prev + [f];
      assert (prev + [f])[..k - 1] == prev;
      assert Flatten(ix.keys[..k], ix.lists) == Flatten(prev, ix.lists) + ix.lists[f];
      FormListCounts(entries, ix.lists, f);
      CountsStep(entries, Flatten(prev, ix.lists), ix.lists[f], prev, f);
    }
  }

  /** The form index lists every arena position exactly once. */
  lemma FlattenCount(entries: seq<Entry>, ix: OrderedIndex)
    requires FormIndexed(entries, ix)
    ensures forall i: nat :: multiset(Flatten(ix.keys, ix.lists))[i] == (if i < |entries| then 1 else 0)
  {
    FlattenPrefixCount(entries, ix, |ix.keys|);
    assert ix.keys[..|ix.keys|] == ix.keys;
    assert forall i :: 0 <= i < |entries| ==> entries[i].form in ix.keys;
  }

  /** The entries at the given positions. */
  function EntriesAt(entries: seq<Entry>, ids: seq<nat>): (es: seq<Entry>)
    requires InRange(ids, |entries|)
    ensures |es| == |ids| && forall k :: 0 <= k < |ids| ==> es[k] == entries[ids[k]]
  {
    seq(|ids|, k requires 0 <= k < |ids| => entries[ids[k]])
  }

  // ---------------------------------------------------------------------------------------------
  // Ranking the tags of a lemma: `lemma_xpos_to_form`
  // ---------------------------------------------------------------------------------------------

  /** The tags with their scores against the requested tag. */
  function Scored(keys: seq<string>, searchTag: string): (r: seq<(string, nat)>)
    ensures |r| == |keys| && forall k :: 0 <= k < |keys| ==> r[k] == (keys[k], TagScore(searchTag, keys[k]))
  {
    seq(|keys|, k requires 0 <= k < |keys| => (keys[k], TagScore(searchTag, keys[k])))
  }

  /** The scored tags with a positive score, in order. */
  function Positive(scored: seq<(string, nat)>): (r: seq<(string, nat)>)
    ensures forall t :: t in r <==> t in scored && t.1 > 0
  {
    if scored == [] then []
    else
      var last := scored[|scored| - 1];
      assert scored == scored[..|scored| - 1] + [last];
      Positive(scored[..|scored| - 1]) + (if last.1 > 0 then [last] else [])
  }

  /**
   * The sort key `-score + len(xpos)/100`, multiplied by 100: higher scores first, and among equal
   * scores the shorter tag first.
   */
  function RankKey(t: (string, nat)): int {
    |t.0| - 100 * t.1
  }

  /** The matching tags of an index, best first. */
  function Ranked(keys: seq<string>, searchTag: string): seq<(string, nat)> {
    SortBy(Positive(Scored(keys, searchTag)), RankKey)
  }

  function Names(tags: seq<(string, nat)>): (r: seq<string>)
    ensures |r| == |tags| && forall k :: 0 <= k < |tags| ==> r[k] == tags[k].0
  {
    seq(|tags|, k requires 0 <= k < |tags| => tags[k].0)
  }

  /** Every position listed in the index is an arena position. */
  ghost predicate ListsInRange(ix: OrderedIndex, n: nat) {
    forall x :: x in ix.lists ==> InRange(ix.lists[x], n)
  }

  lemma RankedInIndex(ix: OrderedIndex, searchTag: string)
    requires WellFormed(ix)
    ensures forall k :: k in Names(Ranked(ix.keys, searchTag)) ==> k in ix.lists
  {
    var r := Ranked(ix.keys, searchTag);
    SortBySpec(Positive(Scored(ix.keys, searchTag)), RankKey);
    forall k | k in Names(r) ensures k in ix.lists {
      var j :| 0 <= j < |r| && Names(r)[j] == k;
      assert r[j] in multiset(r);
      assert r[j] in Scored(ix.keys, searchTag);
    }
  }

  /** The positions of the entries the tags give, best tag first. */
  ghost function Gathered(ix: OrderedIndex, searchTag: string): seq<nat>
    requires WellFormed(ix)
  {
    RankedInIndex(ix, searchTag);
    Flatten(Names(Ranked(ix.keys, searchTag)), ix.lists)
  }

  /** The positions `lemma_xpos_to_form` returns the forms of: the gathered ones the filter keeps. */
  ghost function Selection(entries: seq<Entry>, ix: OrderedIndex, searchTag: string, filterFn: Option<(Entry, string) -> bool>): (r: seq<nat>)
    requires WellFormed(ix) && ListsInRange(ix, |entries|)
    ensures InRange(r, |entries|)
  {
    RankedInIndex(ix, searchTag);
    FlattenInRange(Names(Ranked(ix.keys, searchTag)), ix.lists, |entries|);
    var ids := Gathered(ix, searchTag);
    if filterFn.None? then ids else Where(entries, ids, Keeps(filterFn.value, searchTag))
  }

  /** A filter function applied with the requested tag. */
  function Keeps(filterFn: (Entry, string) -> bool, searchTag: string): Entry -> bool {
    e => filterFn(e, searchTag)
  }

  /** The forms of the entries at the positions. */
  function FormsOf(entries: seq<Entry>, ids: seq<nat>): (forms: seq<string>)
    requires InRange(ids, |entries|)
    ensures |forms| == |ids| && forall k :: 0 <= k < |ids| ==> forms[k] == entries[ids[k]].form
  {
    seq(|ids|, k requires 0 <= k < |ids| => entries[ids[k]].form)
  }

  lemma TagsInRange(entries: seq<Entry>, l: string, ix: OrderedIndex)
    requires TagsIndexed(entries, l, ix)
    ensures ListsInRange(ix, |entries|)
  {
    forall x, k | x in ix.lists && 0 <= k < |ix.lists[x]| ensures ix.lists[x][k] < |entries| {
      var i: nat := ix.lists[x][k];
      assert multiset(ix.lists[x])[i] > 0;
      TagCountAt(entries, l, ix.lists, x, i);
    }
  }

  /** A position listed under tag x of lemma l's index is an entry with that lemma and tag. */
  lemma ListedEntry(entries: seq<Entry>, l: string, ix: OrderedIndex, x: string, i: nat)
    requires TagsIndexed(entries, l, ix) && x in ix.lists && i in ix.lists[x]
    ensures i < |entries| && entries[i].lem == l && entries[i].xpos == x
  {
    assert multiset(ix.lists[x])[i] > 0;
    TagCountAt(entries, l, ix.lists, x, i);
  }

  /** A ranked tag has a positive score, and is scored by `xpos_tag_matches`. */
  lemma RankedScored(keys: seq<string>, searchTag: string, t: (string, nat))
    requires t in Ranked(keys, searchTag)
    ensures t.0 in keys && t.1 == TagScore(searchTag, t.0) && t.1 > 0
  {
    SortBySpec(Positive(Scored(keys, searchTag)), RankKey);
    assert t in multiset(Ranked(keys, searchTag));
    assert t in Scored(keys, searchTag);
  }

  /** A selected position was gathered, and the filter keeps its entry. */
  lemma SelectedGathered(entries: seq<Entry>, ix: OrderedIndex, searchTag: string,
                         filterFn: Option<(Entry, string) -> bool>, i: nat)
    requires WellFormed(ix) && ListsInRange(ix, |entries|)
    requires i in Selection(entries, ix, searchTag, filterFn)
    ensures i in Gathered(ix, searchTag)
    ensures filterFn.Some? ==> i < |entries| && filterFn.value(entries[i], searchTag)
  {
  }

  /** A gathered position is listed under one of the ranked tags. */
  lemma GatheredListed(ix: OrderedIndex, searchTag: string, i: nat) returns (t: (string, nat))
    requires WellFormed(ix)
    requires i in Gathered(ix, searchTag)
    ensures t in Ranked(ix.keys, searchTag) && t.0 in ix.lists && i in ix.lists[t.0]
  {
    var r := Ranked(ix.keys, searchTag);
    RankedInIndex(ix, searchTag);
    FlattenMember(Names(r), ix.lists, i);
    var k :| 0 <= k < |r| && i in ix.lists[Names(r)[k]];
    t := r[k];
  }

  /**
   * Soundness of `lemma_xpos_to_form`: every position selected for lemma l is an entry of l whose
   * tag does not clash with the requested tag and agrees with it somewhere, and that the filter keeps.
   */
  lemma SelectionSound(entries: seq<Entry>, l: string, ix: OrderedIndex, searchTag: string,
                       filterFn: Option<(Entry, string) -> bool>, i: nat)
    requires TagsIndexed(entries, l, ix) && ListsInRange(ix, |entries|)
    requires i in Selection(entries, ix, searchTag, filterFn)
    ensures i < |entries| && entries[i].lem == l && TagScore(searchTag, entries[i].xpos) > 0
    ensures filterFn.Some? ==> filterFn.value(entries[i], searchTag)
  {
    SelectedGathered(entries, ix, searchTag, filterFn, i);
    var t := GatheredListed(ix, searchTag, i);
    RankedScored(ix.keys, searchTag, t);
    ListedEntry(entries, l, ix, t.0, i);
  }

  /** A position listed under a tag that scores above zero is gathered. */
  lemma ListedGathered(ix: OrderedIndex, searchTag: string, x: string, i: nat)
    requires WellFormed(ix) && x in ix.keys && i in ix.lists[x] && TagScore(searchTag, x) > 0
    ensures i in Gathered(ix, searchTag)
  {
    var t := (x, TagScore(searchTag, x));
    var scored := Scored(ix.keys, searchTag);
    assert x in ix.keys;
    var j :| 0 <= j < |ix.keys| && ix.keys[j] == x;
    assert scored[j] == t;
    var r := Ranked(ix.keys, searchTag);
    SortBySpec(Positive(scored), RankKey);
    assert t in multiset(Positive(scored));
    assert t in r;
    var k :| 0 <= k < |r| && r[k] == t;
    assert Names(r)[k] == x;
    RankedInIndex(ix, searchTag);
    FlattenMember(Names(r), ix.lists, i);
  }

  /** A gathered position whose entry the filter keeps is selected. */
  lemma GatheredSelected(entries: seq<Entry>, ix: OrderedIndex, searchTag: string,
                         filterFn: Option<(Entry, string) -> bool>, i: nat)
    requires WellFormed(ix) && ListsInRange(ix, |entries|)
    requires i < |entries| && i in Gathered(ix, searchTag)
    requires filterFn.Some? ==> filterFn.value(entries[i], searchTag)
    ensures i in Selection(entries, ix, searchTag, filterFn)
  {
    if filterFn.Some? {
      var r := Ranked(ix.keys, searchTag);
      RankedInIndex(ix, searchTag);
      FlattenInRange(Names(r), ix.lists, |entries|);
      var g: seq<nat> := Gathered(ix, searchTag);
      WhereCount(entries, g, Keeps(filterFn.value, searchTag));
      assert multiset(g)[i] > 0;
    }
  }

  /**
   * Completeness of `lemma_xpos_to_form`: every entry of lemma l whose tag scores above zero against
   * the requested tag, and that the filter keeps, is selected.
   */
  lemma SelectionComplete(entries: seq<Entry>, l: string, ix: OrderedIndex, searchTag: string,
                          filterFn: Option<(Entry, string) -> bool>, i: nat)
    requires TagsIndexed(entries, l, ix) && ListsInRange(ix, |entries|)
    requires i < |entries| && entries[i].lem == l && TagScore(searchTag, entries[i].xpos) > 0
    requires filterFn.Some? ==> filterFn.value(entries[i], searchTag)
    ensures i in Selection(entries, ix, searchTag, filterFn)
  {
    var x := entries[i].xpos;
    assert x in ix.keys;
    TagCountAt(entries, l, ix.lists, x, i);
    ListedGathered(ix, searchTag, x, i);
    GatheredSelected(entries, ix, searchTag, filterFn, i);
  }

  /** The rank of the tag of the entry at a position. */
  function TagRank(entries: seq<Entry>, searchTag: string): nat -> int {
    (i: nat) => if i < |entries| then RankKey((entries[i].xpos, TagScore(searchTag, entries[i].xpos))) else 0
  }

  /** A position listed under a scored tag has that tag's rank. */
  lemma RankAt(entries: seq<Entry>, searchTag: string, lists: map<string, seq<nat>>, t: (string, nat), a: nat)
    requires ListedUnder(entries, lists) && t.0 in lists && a in lists[t.0] && t.1 == TagScore(searchTag, t.0)
    ensures TagRank(entries, searchTag)(a) == RankKey(t)
  {
  }

  lemma {:induction false} FlattenRanked(entries: seq<Entry>, searchTag: string, r: seq<(string, nat)>, lists: map<string, seq<nat>>)
    requires SortedBy(r, RankKey)
    requires forall k :: 0 <= k < |r| ==> r[k].0 in lists && r[k].1 == TagScore(searchTag, r[k].0)
    requires ListedUnder(entries, lists)
    ensures SortedBy(Flatten(Names(r), lists), TagRank(entries, searchTag))
  {
    if r != [] {
      var init := r[..|r| - 1];
      var last := r[|r| - 1];
      FlattenRanked(entries, searchTag, init, lists);
      assert Names(r)[..|r| - 1] == Names(init);
      var front := Flatten(Names(init), lists);
      var back := lists[last.0];
      assert Flatten(Names(r), lists) == front + back;
      var key := TagRank(entries, searchTag);
      forall a | a in front ensures key(a) <= RankKey(last) {
        FlattenMember(Names(init), lists, a);
        var k :| 0 <= k < |init| && a in lists[Names(init)[k]];
        assert r[k] == init[k] && Names(init)[k] == r[k].0;
        RankAt(entries, searchTag, lists, r[k], a);
        assert RankKey(r[k]) <= RankKey(r[|r| - 1]);
      }
      forall b | b in back ensures key(b) == RankKey(last) {
        RankAt(entries, searchTag, lists, last, b);
      }
      var s := front + back;
      forall a, b | 0 <= a < b < |s| ensures key(s[a]) <= key(s[b]) {
        if b < |front| {
          assert s[a] == front[a] && s[b] == front[b];
        } else if a < |front| {
          assert s[a] in front && s[b] in back;
        } else {
          assert s[a] in back && s[b] in back;
        }
      }
    }
  }

  lemma RankedTagsScored(ix: OrderedIndex, searchTag: string)
    requires WellFormed(ix)
    ensures var r := Ranked(ix.keys, searchTag);
      forall k :: 0 <= k < |r| ==> r[k].0 in ix.lists && r[k].1 == TagScore(searchTag, r[k].0)
  {
    var r := Ranked(ix.keys, searchTag);
    forall k | 0 <= k < |r| ensures r[k].0 in ix.lists && r[k].1 == TagScore(searchTag, r[k].0) {
      RankedScored(ix.keys, searchTag, r[k]);
    }
  }

  /** Each position is listed under its own entry's tag. */
  ghost predicate ListedUnder(entries: seq<Entry>, lists: map<string, seq<nat>>) {
    forall x, i: nat | x in lists && i in lists[x] :: i < |entries| && entries[i].xpos == x
  }

  lemma TagsListedUnder(entries: seq<Entry>, l: string, ix: OrderedIndex)
    requires TagsIndexed(entries, l, ix)
    ensures ListedUnder(entries, ix.lists)
  {
    forall x, i: nat | x in ix.lists && i in ix.lists[x] ensures i < |entries| && entries[i].xpos == x {
      ListedEntry(entries, l, ix, x, i);
    }
  }

  /** The gathered positions come tag by tag, in rank order. */
  lemma GatheredRanked(entries: seq<Entry>, ix: OrderedIndex, searchTag: string)
    requires WellFormed(ix) && ListedUnder(entries, ix.lists)
    ensures SortedBy(Gathered(ix, searchTag), TagRank(entries, searchTag))
  {
    var r := Ranked(ix.keys, searchTag);
    SortBySpec(Positive(Scored(ix.keys, searchTag)), RankKey);
    RankedInIndex(ix, searchTag);
    RankedTagsScored(ix, searchTag);
    FlattenRanked(entries, searchTag, r, ix.lists);
  }

  /**
   * Ordering of `lemma_xpos_to_form`: the forms come tag by tag, higher scores first and, among
   * equal scores, shorter tags first.
   */
  lemma SelectionRanked(entries: seq<Entry>, l: string, ix: OrderedIndex, searchTag: string,
                        filterFn: Option<(Entry, string) -> bool>)
    requires TagsIndexed(entries, l, ix) && ListsInRange(ix, |entries|)
    ensures SortedBy(Selection(entries, ix, searchTag, filterFn), TagRank(entries, searchTag))
  {
    TagsListedUnder(entries, l, ix);
    GatheredRanked(entries, ix, searchTag);
    if filterFn.Some? {
      var r := Ranked(ix.keys, searchTag);
      RankedInIndex(ix, searchTag);
      FlattenInRange(Names(r), ix.lists, |entries|);
      WhereSorted(entries, Gathered(ix, searchTag), Keeps(filterFn.value, searchTag), TagRank(entries, searchTag));
    }
  }

  // ---------------------------------------------------------------------------------------------
  // The lexicon
  // ---------------------------------------------------------------------------------------------

  /** `if lemma:` on an optional string: None and the empty string are both false. */
  predicate Truthy(o: Option<string>) {
    o.Some? && o.value != ""
  }

  /** The entries `add_count` counts: the form's entries, narrowed by a given lemma and a given tag. */
  predicate Selected(e: Entry, form: string, lem: Option<string>, xpos: Option<string>) {
    e.form == form && (Truthy(lem) ==> e.lem == lem.value) && (Truthy(xpos) ==> e.xpos == xpos.value)
  }

  function SortLemmas(d: map<string, OrderedIndex>, key: nat -> int): (r: map<string, OrderedIndex>)
    ensures r.Keys == d.Keys && forall l :: l in d ==> r[l] == SortIndex(d[l], key)
  {
    map l | l in d :: SortIndex(d[l], key)
  }

  function LemmaIs(l: string): Entry -> bool {
    (e: Entry) => e.lem == l
  }

  function XposIs(x: string): Entry -> bool {
    (e: Entry) => e.xpos == x
  }

  /** Every list of both indexes is ordered by decreasing count. */
  ghost predicate CountOrdered(entries: seq<Entry>, ix: OrderedIndex, d: map<string, OrderedIndex>) {
    (forall f :: f in ix.lists ==> SortedBy(ix.lists[f], ByCount(entries))) &&
    (forall l, x :: l in d && x in d[l].lists ==> SortedBy(d[l].lists[x], ByCount(entries)))
  }

  class Lexicon {
    /** The entries, by arena position; both indexes hold positions into it. */
    var entries: seq<Entry>
    /** `form_dict`: form to entry list. */
    var formDict: OrderedIndex
    /** `lemma_dict`: lemma to tag to entry list. */
    var lemmaDict: map<string, OrderedIndex>

    /** Both indexes list exactly the arena's entries under their form, and under their lemma and tag. */
    ghost predicate Valid()
      reads this
    {
      FormIndexed(entries, formDict) && LemmaIndexed(entries, lemmaDict)
    }

    /**
     * `Lexicon(entries)`: every entry is appended to its form's list and to its lemma and tag's list,
     * keys in order of first appearance, and then every list is sorted by decreasing count, stably.
     */
    constructor (es: seq<Entry>)
      ensures entries == es && Valid() && CountOrdered(entries, formDict, lemmaDict)
      ensures formDict == SortIndex(FormIndex(es, |es|), ByCount(es))
      ensures lemmaDict == SortLemmas(LemmaIndex(es, |es|), ByCount(es))
    {
      var forms, lemmas := BuildIndexes(es);
      entries := es;
      formDict := forms;
      lemmaDict := lemmas;
      new;
      SortLists();
    }

    /** `sort_lists`: every list of both indexes sorted by decreasing count, stably. */
    method SortLists()
      requires Valid()
      modifies this
      ensures Valid() && CountOrdered(entries, formDict, lemmaDict)
      ensures entries == old(entries)
      ensures formDict == SortIndex(old(formDict), ByCount(entries))
      ensures lemmaDict == SortLemmas(old(lemmaDict), ByCount(entries))
    {
      SortedFormIndexed(entries, formDict, ByCount(entries));
      SortedLemmaIndexed(entries, lemmaDict, ByCount(entries));
      formDict := SortIndex(formDict, ByCount(entries));
      lemmaDict := SortLemmas(lemmaDict, ByCount(entries));
    }

    /**
     * `add_count`: one more use of every entry with the form, narrowed to a given lemma and a given
     * tag (an empty or missing one narrows nothing). The change is seen through both indexes, which
     * hold the same entries; the lists are not re-sorted. False when no entry is selected.
     */
    method AddCount(form: string, lem: Option<string>, xpos: Option<string>) returns (found: bool)
      requires Valid()
      modifies this
      ensures Valid() && formDict == old(formDict) && lemmaDict == old(lemmaDict)
      ensures entries == Counted(old(entries), form, lem, xpos)
      ensures found == AnySelected(old(entries), form, lem, xpos)
    {
      var ids := if form in formDict.lists then formDict.lists[form] else [];
      if ids == [] {
        NoneSelected(entries, formDict, form, lem, xpos);
        return false;
      }
      FormListInRange(entries, formDict, form);
      ghost var formIds := ids;
      if Truthy(lem) {
        ids := Where(entries, ids, LemmaIs(lem.value));
      }
      ghost var lemIds := ids;
      if Truthy(xpos) {
        ids := Where(entries, ids, XposIs(xpos.value));
      }
      SelectedCount(entries, formDict, form, lem, xpos, formIds, lemIds, ids);
      if ids == [] {
        NoneListed(entries, ids, form, lem, xpos);
        return false;
      }
      SomeListed(entries, ids, form, lem, xpos);
      CountEach(ids);
      IncrementSelected(old(entries), entries, ids, form, lem, xpos);
      return true;
    }

    /** The loop of `add_count`: one more use of the entry at each listed position, in place. */
    method CountEach(ids: seq<nat>)
      requires Valid() && InRange(ids, |entries|)
      modifies this
      ensures Valid() && formDict == old(formDict) && lemmaDict == old(lemmaDict)
      ensures entries == Bumped(old(entries), ids)
    {
      var es := Increment(entries, ids);
      BumpedIndexed(entries, formDict, lemmaDict, ids);
      entries := es;
    }

    /** `iter_entries`: the entries list by list, forms in key order; each entry exactly once. */
    method IterEntries() returns (es: seq<Entry>)
      requires Valid()
      ensures InRange(Flatten(formDict.keys, formDict.lists), |entries|)
      ensures es == EntriesAt(entries, Flatten(formDict.keys, formDict.lists))
      ensures multiset(es) == multiset(entries)
    {
      FormListsInRange(entries, formDict);
      es := [];
      ghost var ids: seq<nat> := [];
      for k := 0 to |formDict.keys|
        invariant ids == Flatten(formDict.keys[..k], formDict.lists)
        invariant InRange(ids, |entries|) && es == EntriesAt(entries, ids)
      {
        var list := formDict.lists[formDict.keys[k]];
        for j := 0 to |list|
          invariant ids == Flatten(formDict.keys[..k], formDict.lists) + list[..j]
          invariant InRange(ids, |entries|) && es == EntriesAt(entries, ids)
        {
          assert list[..j + 1] == list[..j] + [list[j]];
          es := es + [entries[list[j]]];
          ids := ids + [list[j]];
        }
        assert list[..|list|] == list;
        assert formDict.keys[..k + 1][..k] == formDict.keys[..k];
      }
      assert formDict.keys[..|formDict.keys|] == formDict.keys;
      FlattenCount(entries, formDict);
      AllEntriesAt(entries, ids);
    }

    /**
     * `lemma_xpos_to_form`: none for an unknown lemma; otherwise the forms of the lemma's entries
     * whose tags score above zero against the requested tag, best score first and shorter tag first
     * among equals, each tag's entries in list order, narrowed by the filter when one is given.
     */
    method LemmaXposToForm(lem: string, searchTag: string, filterFn: Option<(Entry, string) -> bool>)
      returns (forms: Option<seq<string>>)
      requires Valid()
      ensures lem in lemmaDict ==> ListsInRange(lemmaDict[lem], |entries|)
      ensures forms.None? <==> forall i :: 0 <= i < |entries| ==> entries[i].lem != lem
      ensures forms.Some? ==> forms.value == FormsOf(entries, Selection(entries, lemmaDict[lem], searchTag, filterFn))
    {
      LemmaKeys(entries, lemmaDict, lem);
      if lem !in lemmaDict {
        return None;
      }
      var xposDict := lemmaDict[lem];
      TagsInRange(entries, lem, xposDict);
      var scored := ScoreTags(xposDict.keys, searchTag);
      var ranked := SortBy(Positive(scored), RankKey);
      RankedInIndex(xposDict, searchTag);
      var names := Names(ranked);
      var ids := Gather(names, xposDict.lists);
      FlattenInRange(names, xposDict.lists, |entries|);
      if filterFn.Some? {
        ids := Where(entries, ids, Keeps(filterFn.value, searchTag));
      }
      forms := Some(FormsOf(entries, ids));
    }
  }

  /** The scoring loop of `lemma_xpos_to_form`: each tag paired with its score against the requested tag. */
  method ScoreTags(keys: seq<string>, searchTag: string) returns (scored: seq<(string, nat)>)
    ensures scored == Scored(keys, searchTag)
  {
    scored := [];
    for k := 0 to |keys|
      invariant |scored| == k
      invariant forall j :: 0 <= j < k ==> scored[j] == (keys[j], TagScore(searchTag, keys[j]))
    {
      var score := XposTagMatches(searchTag, keys[k]);
      scored := scored + [(keys[k], score)];
    }
  }

  /** The gathering loop of `lemma_xpos_to_form`: the lists of the given keys, one after another. */
  method Gather(keys: seq<string>, lists: map<string, seq<nat>>) returns (ids: seq<nat>)
    requires forall k :: k in keys ==> k in lists
    ensures ids == Flatten(keys, lists)
  {
    ids := [];
    for k := 0 to |keys|
      invariant ids == Flatten(keys[..k], lists)
    {
      assert keys[..k + 1][..k] == keys[..k];
      ids := ids + lists[keys[k]];
    }
    assert keys[..|keys|] == keys;
  }

  /** Some entry is selected by `add_count`'s arguments. */
  predicate AnySelected(entries: seq<Entry>, form: string, lem: Option<string>, xpos: Option<string>) {
    exists i :: 0 <= i < |entries| && Selected(entries[i], form, lem, xpos)
  }

  /** The entries after `add_count`: every selected entry has one more use. */
  function Counted(entries: seq<Entry>, form: string, lem: Option<string>, xpos: Option<string>): (r: seq<Entry>)
    ensures |r| == |entries|
    ensures forall i :: 0 <= i < |r| ==>
      r[i] == entries[i].(count := entries[i].count + if Selected(entries[i], form, lem, xpos) then 1 else 0)
  {
    seq(|entries|, i requires 0 <= i < |entries| =>
      entries[i].(count := entries[i].count + if Selected(entries[i], form, lem, xpos) then 1 else 0))
  }

  /** When nothing is selected, `add_count` changes no entry. */
  lemma CountedNone(entries: seq<Entry>, form: string, lem: Option<string>, xpos: Option<string>)
    requires !AnySelected(entries, form, lem, xpos)
    ensures Counted(entries, form, lem, xpos) == entries
  {
    var r := Counted(entries, form, lem, xpos);
    forall i | 0 <= i < |r| ensures r[i] == entries[i] {
      assert !Selected(entries[i], form, lem, xpos);
    }
  }

  /** Counting changes only counts, so both indexes still list exactly the entries. */
  lemma BumpedIndexed(entries: seq<Entry>, ix: OrderedIndex, d: map<string, OrderedIndex>, ids: seq<nat>)
    requires FormIndexed(entries, ix) && LemmaIndexed(entries, d)
    ensures FormIndexed(Bumped(entries, ids), ix) && LemmaIndexed(Bumped(entries, ids), d)
  {
    var r := Bumped(entries, ids);
    assert forall i :: 0 <= i < |entries| ==> entries[i] == r[i].(count := entries[i].count);
    IndexedSameKeys(entries, r, ix, d);
  }

  /** Each entry with one more use for every listing of its position. */
  function Bumped(entries: seq<Entry>, ids: seq<nat>): (r: seq<Entry>)
    ensures |r| == |entries|
    ensures forall i :: 0 <= i < |r| ==> r[i] == entries[i].(count := entries[i].count + multiset(ids)[i])
  {
    seq(|entries|, i requires 0 <= i < |entries| => entries[i].(count := entries[i].count + multiset(ids)[i]))
  }

  /** `for e in entries: e.count += 1` over the entries at the listed positions. */
  method Increment(entries: seq<Entry>, ids: seq<nat>) returns (es: seq<Entry>)
    requires InRange(ids, |entries|)
    ensures es == Bumped(entries, ids)
  {
    es := entries;
    for k := 0 to |ids|
      invariant es == Bumped(entries, ids[..k])
    {
      BumpedStep(entries, ids, k);
      var i := ids[k];
      es := es[i := es[i].(count := es[i].count + 1)];
    }
    assert ids[..|ids|] == ids;
  }

  lemma BumpedStep(entries: seq<Entry>, ids: seq<nat>, k: nat)
    requires InRange(ids, |entries|) && k < |ids|
    ensures var b := Bumped(entries, ids[..k]);
      Bumped(entries, ids[..k + 1]) == b[ids[k] := b[ids[k]].(count := b[ids[k]].count + 1)]
  {
    assert ids[..k + 1] == ids[..k] + [ids[k]];
  }

  /** The positions list each entry `add_count` selects once, and nothing else. */
  ghost predicate SelectsOnce(entries: seq<Entry>, ids: seq<nat>, form: string, lem: Option<string>, xpos: Option<string>) {
    forall i: nat {:trigger multiset(ids)[i]} :: multiset(ids)[i] == if i < |entries| && Selected(entries[i], form, lem, xpos) then 1 else 0
  }

  /** Incrementing at the selected positions gives each selected entry one more use, and changes nothing else. */
  lemma IncrementSelected(entries: seq<Entry>, es: seq<Entry>, ids: seq<nat>, form: string, lem: Option<string>, xpos: Option<string>)
    requires es == Bumped(entries, ids)
    requires SelectsOnce(entries, ids, form, lem, xpos)
    ensures es == Counted(entries, form, lem, xpos)
  {
    forall i | 0 <= i < |es|
      ensures es[i] == entries[i].(count := entries[i].count + if Selected(entries[i], form, lem, xpos) then 1 else 0)
    {
      var j: nat := i;
      assert multiset(ids)[j] == if Selected(entries[j], form, lem, xpos) then 1 else 0;
    }
  }

  lemma FormListInRange(entries: seq<Entry>, ix: OrderedIndex, f: string)
    requires FormIndexed(entries, ix) && f in ix.lists
    ensures InRange(ix.lists[f], |entries|)
  {
    assert ListsForms(entries, ix.lists);
    forall k | 0 <= k < |ix.lists[f]| ensures ix.lists[f][k] < |entries| {
      var i: nat := ix.lists[f][k];
      assert multiset(ix.lists[f])[i] > 0;
      FormCountAt(entries, ix.lists, f, i);
    }
  }

  lemma FormListsInRange(entries: seq<Entry>, ix: OrderedIndex)
    requires FormIndexed(entries, ix)
    ensures forall k :: k in ix.keys ==> k in ix.lists && InRange(ix.lists[k], |entries|)
    ensures InRange(Flatten(ix.keys, ix.lists), |entries|)
  {
    forall k | k in ix.keys ensures k in ix.lists && InRange(ix.lists[k], |entries|) {
      FormListInRange(entries, ix, k);
    }
    FlattenInRange(ix.keys, ix.lists, |entries|);
  }

  /** A form without a non-empty list is the form of no entry, so no entry is selected. */
  lemma NoneSelected(entries: seq<Entry>, ix: OrderedIndex, form: string, lem: Option<string>, xpos: Option<string>)
    requires FormIndexed(entries, ix) && (form !in ix.lists || ix.lists[form] == [])
    ensures !AnySelected(entries, form, lem, xpos) && Counted(entries, form, lem, xpos) == entries
  {
    forall i | 0 <= i < |entries| ensures entries[i].form != form {
      assert entries[i].form in ix.keys;
    }
    CountedNone(entries, form, lem, xpos);
  }

  /** The positions `add_count` updates: each selected entry once, and nothing else. */
  lemma SelectedCount(entries: seq<Entry>, ix: OrderedIndex, form: string, lem: Option<string>, xpos: Option<string>,
                      formIds: seq<nat>, lemIds: seq<nat>, ids: seq<nat>)
    requires FormIndexed(entries, ix) && form in ix.lists && formIds == ix.lists[form]
    requires InRange(formIds, |entries|)
    requires lemIds == if Truthy(lem) then Where(entries, formIds, LemmaIs(lem.value)) else formIds
    requires ids == if Truthy(xpos) then Where(entries, lemIds, XposIs(xpos.value)) else lemIds
    ensures InRange(ids, |entries|)
    ensures SelectsOnce(entries, ids, form, lem, xpos)
  {
    assert ListsForms(entries, ix.lists);
    if Truthy(lem) {
      WhereCount(entries, formIds, LemmaIs(lem.value));
    }
    if Truthy(xpos) {
      WhereCount(entries, lemIds, XposIs(xpos.value));
    }
    forall i: nat ensures multiset(ids)[i] == if i < |entries| && Selected(entries[i], form, lem, xpos) then 1 else 0 {
      FormCountAt(entries, ix.lists, form, i);
      if i >= |entries| {
        assert i !in ids;
      }
    }
  }

  lemma NoneListed(entries: seq<Entry>, ids: seq<nat>, form: string, lem: Option<string>, xpos: Option<string>)
    requires ids == []
    requires SelectsOnce(entries, ids, form, lem, xpos)
    ensures !AnySelected(entries, form, lem, xpos) && Counted(entries, form, lem, xpos) == entries
  {
    forall i | 0 <= i < |entries| ensures !Selected(entries[i], form, lem, xpos) {
      var j: nat := i;
      assert multiset(ids)[j] == 0;
    }
    CountedNone(entries, form, lem, xpos);
  }

  lemma SomeListed(entries: seq<Entry>, ids: seq<nat>, form: string, lem: Option<string>, xpos: Option<string>)
    requires ids != []
    requires SelectsOnce(entries, ids, form, lem, xpos)
    ensures AnySelected(entries, form, lem, xpos)
  {
    var j: nat := ids[0];
    assert multiset(ids)[j] > 0;
  }

  /** A lemma has a key exactly when some entry has that lemma. */
  lemma LemmaKeys(entries: seq<Entry>, d: map<string, OrderedIndex>, l: string)
    requires LemmaIndexed(entries, d)
    ensures l in d <==> exists i :: 0 <= i < |entries| && entries[i].lem == l
  {
    if l in d {
      var ix := d[l];
      assert TagsIndexed(entries, l, ix);
      var x := ix.keys[0];
      assert x in ix.lists;
      var j: nat := ix.lists[x][0];
      assert multiset(ix.lists[x])[j] > 0;
      TagCountAt(entries, l, ix.lists, x, j);
    }
  }

  /** The positions 0 to n - 1 in order. */
  function Positions(n: nat): (r: seq<nat>)
    ensures |r| == n && forall k :: 0 <= k < n ==> r[k] == k
  {
    seq(n, k requires 0 <= k < n => k)
  }

  lemma {:induction false} PositionsCount(n: nat)
    ensures forall i: nat :: multiset(Positions(n))[i] == if i < n then 1 else 0
  {
    if n > 0 {
      PositionsCount(n - 1);
      assert Positions(n) == Positions(n - 1) + [n - 1];
    }
  }

  /** Removing one element from a sequence removes one occurrence from its multiset. */
  lemma RemoveAt<T>(b: seq<T>, j: nat)
    requires j < |b|
    ensures multiset(b[..j] + b[j + 1..]) == multiset(b) - multiset{b[j]}
  {
    assert b == b[..j] + [b[j]] + b[j + 1..];
  }

  /** Removing one position removes its entry once. */
  lemma EntriesAtRemove(entries: seq<Entry>, b: seq<nat>, j: nat)
    requires InRange(b, |entries|) && j < |b|
    ensures InRange(b[..j] + b[j + 1..], |entries|)
    ensures multiset(EntriesAt(entries, b)) == multiset(EntriesAt(entries, b[..j] + b[j + 1..])) + multiset{entries[b[j]]}
  {
    var e := EntriesAt(entries, b);
    assert EntriesAt(entries, b[..j] + b[j + 1..]) == e[..j] + e[j + 1..];
    assert e == e[..j] + [e[j]] + e[j + 1..];
  }

  /** Reordering the positions reorders the entries at them. */
  lemma {:induction false} EntriesAtPermutation(entries: seq<Entry>, a: seq<nat>, b: seq<nat>)
    requires InRange(a, |entries|) && InRange(b, |entries|) && multiset(a) == multiset(b)
    ensures multiset(EntriesAt(entries, a)) == multiset(EntriesAt(entries, b))
    decreases |a|
  {
    if a != [] {
      var i := |a| - 1;
      var x := a[i];
      assert x in multiset(b);
      var j :| 0 <= j < |b| && b[j] == x;
      RemoveAt(a, i);
      RemoveAt(b, j);
      EntriesAtRemove(entries, a, i);
      EntriesAtRemove(entries, b, j);
      EntriesAtPermutation(entries, a[..i] + a[i + 1..], b[..j] + b[j + 1..]);
    }
  }

  /** Positions that hold every arena position once give every entry once. */
  lemma AllEntriesAt(entries: seq<Entry>, ids: seq<nat>)
    requires InRange(ids, |entries|)
    requires forall i: nat :: multiset(ids)[i] == if i < |entries| then 1 else 0
    ensures multiset(EntriesAt(entries, ids)) == multiset(entries)
  {
    var all := Positions(|entries|);
    PositionsCount(|entries|);
    assert multiset(ids) == multiset(all);
    EntriesAtPermutation(entries, ids, all);
    assert EntriesAt(entries, all) == entries;
  }

  /** The loop of the constructor: each entry appended to its form's list and to its lemma and tag's list. */
  method BuildIndexes(es: seq<Entry>) returns (forms: OrderedIndex, lemmas: map<string, OrderedIndex>)
    ensures forms == FormIndex(es, |es|) && lemmas == LemmaIndex(es, |es|)
    ensures FormIndexed(es, forms) && LemmaIndexed(es, lemmas)
  {
    forms := EmptyIndex;
    lemmas := map[];
    for i := 0 to |es|
      invariant forms == FormIndex(es, i) && lemmas == LemmaIndex(es, i)
    {
      forms := Append(forms, es[i].form, i);
      lemmas := AddToLemmas(lemmas, es[i], i);
    }
    FormIndexBuilt(es);
    LemmaIndexBuilt(es);
  }

  /** The position of the first entry with the given form, or the number of entries. */
  function FirstForm(es: seq<Entry>, f: string): (p: nat)
    ensures p <= |es| && (p < |es| ==> es[p].form == f) && forall i :: 0 <= i < p ==> es[i].form != f
  {
    if es == [] then 0 else if es[0].form == f then 0 else 1 + FirstForm(es[1..], f)
  }

  /** Each form key's first appearance lies below n, and the keys are ordered by it. */
  ghost predicate KeysByFirstForm(es: seq<Entry>, keys: seq<string>, n: nat) {
    (forall k :: 0 <= k < |keys| ==> FirstForm(es, keys[k]) < n) &&
    forall a, b :: 0 <= a < b < |keys| ==> FirstForm(es, keys[a]) < FirstForm(es, keys[b])
  }

  lemma KeysByFirstFormStep(es: seq<Entry>, keys: seq<string>, n: nat)
    requires 0 < n <= |es| && KeysByFirstForm(es, keys, n - 1)
    requires forall i :: 0 <= i < n - 1 ==> es[i].form != es[n - 1].form
    ensures KeysByFirstForm(es, keys + [es[n - 1].form], n)
  {
    assert FirstForm(es, es[n - 1].form) == n - 1;
  }

  /** The constructor's form keys come in order of each form's first appearance. */
  lemma {:induction false} FormKeysOrdered(es: seq<Entry>, n: nat)
    requires n <= |es|
    ensures KeysByFirstForm(es, FormIndex(es, n).keys, n)
  {
    if n > 0 {
      FormKeysOrdered(es, n - 1);
      var prev := FormIndex(es, n - 1);
      var f := es[n - 1].form;
      if f !in prev.lists {
        FormUnseen(es, n - 1, f);
        KeysByFirstFormStep(es, prev.keys, n);
      }
    }
  }

  /** A form with no key after n entries is the form of none of them. */
  lemma FormUnseen(es: seq<Entry>, n: nat, f: string)
    requires n <= |es| && f !in FormIndex(es, n).lists
    ensures forall i :: 0 <= i < n ==> es[i].form != f
  {
    FormIndexSpec(es, n);
  }

  /** The form index the constructor's loop builds lists exactly the entries. */
  lemma FormIndexBuilt(es: seq<Entry>)
    ensures FormIndexed(es, FormIndex(es, |es|))
  {
    var ix := FormIndex(es, |es|);
    FormIndexSpec(es, |es|);
    forall f, i: nat | f in ix.lists ensures multiset(ix.lists[f])[i] == (if i < |es| && es[i].form == f then 1 else 0) {
      FormIdsCount(es, f, |es|, i);
    }
  }

  lemma TagsBuilt(es: seq<Entry>, l: string, d: map<string, OrderedIndex>)
    requires l in d && TagsListed(es, l, |es|, d[l]) && LemmasSeen(es, |es|, d)
    ensures TagsIndexed(es, l, d[l])
  {
    forall i | 0 <= i < |es| && es[i].lem == l ensures es[i].xpos in d[l].lists {
    }
    forall x, i: nat | x in d[l].lists
      ensures multiset(d[l].lists[x])[i] == (if i < |es| && es[i].lem == l && es[i].xpos == x then 1 else 0)
    {
      LemmaIdsCount(es, l, x, |es|, i);
    }
  }

  /** The lemma index the constructor's loop builds lists exactly the entries. */
  lemma LemmaIndexBuilt(es: seq<Entry>)
    ensures LemmaIndexed(es, LemmaIndex(es, |es|))
  {
    var d := LemmaIndex(es, |es|);
    LemmaIndexSpec(es, |es|);
    forall l | l in d ensures TagsIndexed(es, l, d[l]) {
      TagsBuilt(es, l, d);
    }
  }

  /** Sorting the lists keeps the form index listing exactly the entries, and orders it by count. */
  lemma SortedFormIndexed(entries: seq<Entry>, ix: OrderedIndex, key: nat -> int)
    requires FormIndexed(entries, ix)
    ensures FormIndexed(entries, SortIndex(ix, key))
    ensures forall f :: f in SortIndex(ix, key).lists ==> SortedBy(SortIndex(ix, key).lists[f], key)
  {
    var r := SortIndex(ix, key);
    forall f | f in r.lists ensures r.lists[f] != [] {
      assert |multiset(r.lists[f])| == |multiset(ix.lists[f])|;
    }
  }

  lemma SortedTagsIndexed(entries: seq<Entry>, l: string, ix: OrderedIndex, key: nat -> int)
    requires TagsIndexed(entries, l, ix)
    ensures TagsIndexed(entries, l, SortIndex(ix, key))
    ensures forall x :: x in SortIndex(ix, key).lists ==> SortedBy(SortIndex(ix, key).lists[x], key)
  {
    var r := SortIndex(ix, key);
    forall x | x in r.lists ensures r.lists[x] != [] {
      assert |multiset(r.lists[x])| == |multiset(ix.lists[x])|;
    }
  }

  /** Sorting the lists keeps the lemma index listing exactly the entries, and orders it by count. */
  lemma SortedLemmaIndexed(entries: seq<Entry>, d: map<string, OrderedIndex>, key: nat -> int)
    requires LemmaIndexed(entries, d)
    ensures LemmaIndexed(entries, SortLemmas(d, key))
    ensures forall l, x :: l in d && x in SortLemmas(d, key)[l].lists ==> SortedBy(SortLemmas(d, key)[l].lists[x], key)
  {
    var r := SortLemmas(d, key);
    forall l | l in r ensures TagsIndexed(entries, l, r[l]) && forall x :: x in r[l].lists ==> SortedBy(r[l].lists[x], key) {
      SortedTagsIndexed(entries, l, d[l], key);
    }
  }

  /**
   * What the constructor builds under the forms: a form key for each form of the entries, in order of
   * first appearance, listing that form's entries sorted stably by decreasing count.
   */
  lemma FormsConstructed(es: seq<Entry>)
    ensures var ix := SortIndex(FormIndex(es, |es|), ByCount(es));
      (forall f :: f in ix.lists <==> exists i :: 0 <= i < |es| && es[i].form == f) &&
      (forall f :: f in ix.lists ==> ix.lists[f] == SortBy(FormIds(es, f, |es|), ByCount(es))) &&
      KeysByFirstForm(es, ix.keys, |es|)
  {
    FormIndexSpec(es, |es|);
    FormKeysOrdered(es, |es|);
    var ix := FormIndex(es, |es|);
    forall f | f in ix.lists ensures exists i :: 0 <= i < |es| && es[i].form == f {
      var ids := FormIds(es, f, |es|);
      FormIdsCount(es, f, |es|, ids[0]);
      assert ids[0] in multiset(ids);
    }
  }

  /**
   * What the constructor builds under the lemmas: a lemma key for each lemma of the entries, and under
   * it a tag key for each of its tags, listing those entries sorted stably by decreasing count.
   */
  lemma LemmasConstructed(es: seq<Entry>)
    ensures var d := SortLemmas(LemmaIndex(es, |es|), ByCount(es));
      (forall l :: l in d <==> exists i :: 0 <= i < |es| && es[i].lem == l) &&
      (forall l, x :: l in d && x in d[l].lists ==> d[l].lists[x] == SortBy(LemmaIds(es, l, x, |es|), ByCount(es)))
  {
    LemmaIndexSpec(es, |es|);
    var d := LemmaIndex(es, |es|);
    forall l | l in d ensures exists i :: 0 <= i < |es| && es[i].lem == l {
      var x := d[l].keys[0];
      var ids := LemmaIds(es, l, x, |es|);
      LemmaIdsCount(es, l, x, |es|, ids[0]);
      assert ids[0] in multiset(ids);
    }
  }
}
