// Feature unification for Romanian analytic verb forms: tokens are feature maps whose values are
// sets of admissible strings, `{"@"}` marking a feature that takes the caller's value; rules expand
// a head atom into a sequence of atoms, and a grammar groups rules by head name.

module VerbGrammar {
  import opened Wrappers
  import opened MsdFormat
  import opened RoDictionary

  /** A value handed to the token constructor: one string or a set of strings. */
  datatype Value = Str(s: string) | Strs(ss: set<string>)

  /** Python truthiness of a value: an empty string or an empty set is dropped. */
  predicate Truthy(v: Value) {
    match v
    case Str(s) => s != ""
    case Strs(ss) => ss != {}
  }

  /** A string stands for the singleton set holding it. */
  function AsSet(v: Value): set<string> {
    match v
    case Str(s) => {s}
    case Strs(ss) => ss
  }

  /** A token: every feature maps to a set of admissible values. */
  type Token = map<string, set<string>>

  /** What the constructor guarantees: no feature holds an empty set. */
  predicate ValidToken(t: Token) {
    forall k :: k in t ==> t[k] != {}
  }

  /** The agreement marker `{'@'}`. */
  const Agree: set<string> := {"@"}
  const AgreeValue: string := "@"

  /** The values of a string dictionary, as constructor input. */
  function Strings(d: map<string, string>): (r: map<string, Value>)
    ensures r.Keys == d.Keys && forall k :: k in d ==> r[k] == Str(d[k])
  {
    map k | k in d :: Str(d[k])
  }

  /** A token's own sets, as constructor input. */
  function Sets(t: Token): (r: map<string, Value>)
    ensures r.Keys == t.Keys && forall k :: k in t ==> r[k] == Strs(t[k])
  {
    map k | k in t :: Strs(t[k])
  }

  /** `Token(features)`: falsy values are dropped, a string becomes a singleton, a set is kept. */
  function NewToken(features: map<string, Value>): (t: Token)
    ensures ValidToken(t)
    ensures forall k :: k in t <==> k in features && Truthy(features[k])
    ensures forall k :: k in t ==> t[k] == AsSet(features[k])
  {
    map k | k in features && Truthy(features[k]) :: AsSet(features[k])
  }

  /** Rebuilding a token from its own sets gives it back: the constructor is idempotent. */
  lemma NewTokenOfToken(t: Token)
    requires ValidToken(t)
    ensures NewToken(Sets(t)) == t
  {
    var r := NewToken(Sets(t));
    assert r.Keys == t.Keys;
  }

  /** A token built from strings holds exactly one value per feature. */
  predicate SingleValued(t: Token) {
    forall k :: k in t ==> |t[k]| == 1
  }

  lemma StringTokenSingleValued(d: map<string, string>)
    ensures SingleValued(NewToken(Strings(d)))
    ensures NewToken(Strings(d)).Keys == set k | k in d && d[k] != ""
  {
    var t := NewToken(Strings(d));
    forall k | k in t ensures |t[k]| == 1 {
      assert t[k] == {d[k]};
    }
  }

  /** `other_matches_this`: every feature of the token is in the other dict and shares a value with it. */
  predicate OtherMatchesThis(t: Token, other: map<string, Value>) {
    forall k :: k in t ==> k in other && t[k] * AsSet(other[k]) != {}
  }

  /** A token always matches the features it was built from. */
  lemma MatchesOwnFeatures(features: map<string, Value>)
    ensures OtherMatchesThis(NewToken(features), features)
  {
    var t := NewToken(features);
    forall k | k in t ensures t[k] * AsSet(features[k]) != {} {
      assert t[k] * AsSet(features[k]) == t[k];
    }
  }

  /** Matching only asks about the token's features: extra entries in the other dict never hurt. */
  lemma MatchesExtended(t: Token, other: map<string, Value>, more: map<string, Value>)
    requires OtherMatchesThis(t, other) && forall k :: k in other ==> k in more && more[k] == other[k]
    ensures OtherMatchesThis(t, more)
  {
  }

  /** The dict `apply_agree_values` hands to the constructor. */
  function AgreedValues(t: Token, vd: map<string, string>): map<string, Value> {
    map k | k in t :: if k in vd && t[k] == Agree then Str(vd[k]) else Strs(t[k])
  }

  /**
   * `apply_agree_values`: only features marked `{'@'}` that the caller supplies take the caller's
   * value (dropped when that value is the empty string); nothing is added and every other feature
   * is kept.
   */
  function ApplyAgreeValues(t: Token, vd: map<string, string>): (r: Token)
    ensures ValidToken(r)
    ensures forall k :: k in r ==> k in t
    ensures forall k :: k in t && t[k] != {} && !(k in vd && t[k] == Agree) ==> k in r && r[k] == t[k]
    ensures forall k :: k in t && k in vd && t[k] == Agree ==>
      if vd[k] == "" then k !in r else k in r && r[k] == {vd[k]}
  {
    NewToken(AgreedValues(t, vd))
  }

  /** A supplied value the token cannot take: the feature is fixed and does not admit it. */
  predicate Rejects(t: Token, vd: map<string, string>) {
    exists k :: k in vd && k in t && t[k] != Agree && vd[k] !in t[k]
  }

  /** The dict `apply_values` hands to the constructor when nothing is rejected. */
  function AppliedValues(t: Token, vd: map<string, string>): map<string, Value> {
    map k | k in t.Keys + vd.Keys :: if k in vd then Str(vd[k]) else Strs(t[k])
  }

  /**
   * `apply_values`: none when a supplied value is not admitted by a fixed feature; otherwise every
   * supplied feature takes its value (an empty string drops it) and the others are kept.
   */
  function ApplyValues(t: Token, vd: map<string, string>): (r: Option<Token>)
    ensures r.None? <==> Rejects(t, vd)
    ensures r.Some? ==> ValidToken(r.value)
    ensures r.Some? ==> forall k :: k in r.value <==> (k in vd && vd[k] != "") || (k !in vd && k in t && t[k] != {})
    ensures r.Some? ==> forall k :: k in vd && vd[k] != "" ==> r.value[k] == {vd[k]}
    ensures r.Some? ==> forall k :: k !in vd && k in t && t[k] != {} ==> r.value[k] == t[k]
  {
    if exists k :: k in vd && k in t && t[k] != Agree && vd[k] !in t[k] then None
    else Some(NewToken(AppliedValues(t, vd)))
  }

  /** Agreement keeps a single-valued token single-valued. */
  lemma AgreeKeepsSingleValued(t: Token, vd: map<string, string>)
    requires ValidToken(t) && SingleValued(t)
    ensures SingleValued(ApplyAgreeValues(t, vd))
  {
  }

  // ---------------------------------------------------------------------------------------------
  // to_single_value

  /** The values of a merge key (a tuple), as a set. */
  function Elems(key: seq<string>): set<string> {
    set x | x in key
  }

  /** The first merge entry whose key holds exactly the given values. */
  function FirstMerge(merge: seq<(seq<string>, string)>, v: set<string>): (r: Option<string>)
    ensures r.None? <==> forall i :: 0 <= i < |merge| ==> Elems(merge[i].0) != v
    ensures r.Some? ==> exists i :: 0 <= i < |merge| && Elems(merge[i].0) == v && r.value == merge[i].1 &&
                                    forall j :: 0 <= j < i ==> Elems(merge[j].0) != v
  {
    if merge == [] then None
    else if Elems(merge[0].0) == v then Some(merge[0].1)
    else
      var r := FirstMerge(merge[1..], v);
      if r.Some? then
        var i :| 0 <= i < |merge[1..]| && Elems(merge[1..][i].0) == v && r.value == merge[1..][i].1 &&
          forall j :: 0 <= j < i ==> Elems(merge[1..][j].0) != v;
        assert Elems(merge[i + 1].0) == v && forall j :: 0 <= j < i + 1 ==> Elems(merge[j].0) != v;
        r
      else r
  }

  lemma SingletonUnique(s: set<string>)
    requires |s| == 1
    ensures forall a, b :: a in s && b in s ==> a == b
  {
    forall a, b | a in s && b in s ensures a == b {
      if a != b {
        assert {a, b} <= s;
        assert |{a, b}| == 2;
        SubsetCard({a, b}, s);
      }
    }
  }

  lemma SubsetCard(a: set<string>, b: set<string>)
    requires a <= b
    ensures |a| <= |b|
  {
    assert b == a + (b - a);
  }

  /** `list(v)[0]` of a one-element set. */
  function Sole(s: set<string>): (x: string)
    requires |s| == 1
    ensures s == {x}
  {
    SingletonUnique(s);
    var x :| x in s;
    assert s == {x} by {
      forall y | y in s ensures y == x {}
    }
    x
  }

  /** The single value of one feature: its sole element, else the merge entry for its set. */
  function SingleOf(v: set<string>, merge: seq<(seq<string>, string)>): Option<string> {
    if |v| == 1 then Some(Sole(v)) else FirstMerge(merge, v)
  }

  /** The token after `to_single_value`, none when it fails. */
  function Singled(t: Token, merge: seq<(seq<string>, string)>): Option<map<string, string>>
    requires ValidToken(t)
  {
    if exists k :: k in t && SingleOf(t[k], merge).None? then None
    else Some(map k | k in t :: SingleOf(t[k], merge).value)
  }

  /**
   * `to_single_value`: fails when some feature holds several values and no merge entry has exactly
   * that set; otherwise every feature takes its sole value or the first matching merge value.
   */
  lemma SingledSpec(t: Token, merge: seq<(seq<string>, string)>)
    requires ValidToken(t)
    ensures Singled(t, merge).None? <==>
      exists k :: k in t && |t[k]| > 1 && forall i :: 0 <= i < |merge| ==> Elems(merge[i].0) != t[k]
    ensures Singled(t, merge).Some? ==> Singled(t, merge).value.Keys == t.Keys
    ensures Singled(t, merge).Some? ==> forall k :: k in t && |t[k]| == 1 ==> t[k] == {Singled(t, merge).value[k]}
    ensures Singled(t, merge).Some? ==> forall k :: k in t && |t[k]| > 1 ==> Singled(t, merge).value[k] in set i | 0 <= i < |merge| && Elems(merge[i].0) == t[k] :: merge[i].1
  {
    if Singled(t, merge).Some? {
      var r := Singled(t, merge).value;
      forall k | k in t && |t[k]| > 1 ensures r[k] in set i | 0 <= i < |merge| && Elems(merge[i].0) == t[k] :: merge[i].1 {
        var i :| 0 <= i < |merge| && Elems(merge[i].0) == t[k] && FirstMerge(merge, t[k]).value == merge[i].1 &&
          forall j :: 0 <= j < i ==> Elems(merge[j].0) != t[k];
      }
    }
  }

  /** Without merge entries, exactly the single-valued tokens can be made single. */
  lemma SingledWithoutMerge(t: Token)
    requires ValidToken(t)
    ensures Singled(t, []).Some? <==> SingleValued(t)
  {
    if !SingleValued(t) {
      var k :| k in t && |t[k]| != 1;
      assert SingleOf(t[k], []).None?;
    }
  }

  /** `to_single_value`, on the token as a value: the new feature values, or none when it fails. */
  method ToSingleValue(t: Token, merge: seq<(seq<string>, string)>) returns (r: Option<map<string, string>>)
    requires ValidToken(t)
    ensures r == Singled(t, merge)
  {
    var d: map<string, string> := map[];
    var rest := t.Keys;
    while rest != {}
      invariant rest <= t.Keys
      invariant forall k :: k in t && k !in rest ==> SingleOf(t[k], merge).Some?
      invariant d == map k | k in t && k !in rest :: SingleOf(t[k], merge).value
      decreases rest
    {
      var k :| k in rest;
      var v := t[k];
      if |v| == 1 {
        d := d[k := Sole(v)];
      } else {
        var m := FirstMerge(merge, v);
        if m.None? {
          return None;
        }
        d := d[k := m.value];
      }
      rest := rest - {k};
    }
    assert d == map k | k in t :: SingleOf(t[k], merge).value;
    return Some(d);
  }

  // ---------------------------------------------------------------------------------------------
  // Atom and Rule

  datatype Atom = Atom(name: string, req: Token)

  /** A fixed requirement the input contradicts: the feature is present with no common value. */
  predicate Contradicts(a: Atom, vd: map<string, Value>) {
    exists k :: k in a.req && a.req[k] != Agree && k in vd && Truthy(vd[k]) && a.req[k] * AsSet(vd[k]) == {}
  }

  /**
   * `Atom.value_dict_matches`: none when a fixed requirement contradicts the input; otherwise the
   * input's values for exactly the agreeing requirements the input supplies.
   */
  function ValueDictMatches(a: Atom, vd: map<string, Value>): (r: Option<Token>)
    ensures r.None? <==> Contradicts(a, vd)
    ensures r.Some? ==> forall k :: k in r.value <==> k in a.req && a.req[k] == Agree && k in vd && Truthy(vd[k])
    ensures r.Some? ==> forall k :: k in r.value ==> r.value[k] == AsSet(vd[k])
  {
    var v := NewToken(vd);
    if exists k :: k in a.req && a.req[k] != Agree && k in v && a.req[k] * v[k] == {} then None
    else Some(map k | k in a.req && a.req[k] == Agree && k in v :: v[k])
  }

  datatype Rule = Rule(item: Atom, expansion: seq<Atom>)

  /**
   * `Rule.generate_based_on`: none when the head rejects the values, otherwise one token per
   * expansion atom, in order, with the values agreed in.
   */
  function RuleGenerate(r: Rule, vd: map<string, string>): (s: Option<seq<Token>>)
    ensures s.None? <==> Rejects(r.item.req, vd)
    ensures s.Some? ==> |s.value| == |r.expansion|
    ensures s.Some? ==> forall i :: 0 <= i < |r.expansion| ==> s.value[i] == ApplyAgreeValues(r.expansion[i].req, vd)
  {
    if ApplyValues(r.item.req, vd).None? then None
    else Some(seq(|r.expansion|, i requires 0 <= i < |r.expansion| => ApplyAgreeValues(r.expansion[i].req, vd)))
  }

  /** One feature's values merged into the union. */
  function Merge(u: map<string, set<string>>, m: Token): map<string, set<string>> {
    map k | k in u.Keys + m.Keys :: (if k in u then u[k] else {}) + (if k in m then m[k] else {})
  }

  /** The union of the matches, feature by feature, in order. */
  function UnionOf(ms: seq<Token>): map<string, set<string>> {
    if ms == [] then map[] else Merge(UnionOf(ms[..|ms| - 1]), ms[|ms| - 1])
  }

  /** A feature is in the union iff some match has it. */
  lemma {:induction false} UnionOfKeys(ms: seq<Token>)
    ensures forall k :: k in UnionOf(ms) <==> exists i :: 0 <= i < |ms| && k in ms[i]
  {
    if ms != [] {
      var init := ms[..|ms| - 1];
      var last := ms[|ms| - 1];
      UnionOfKeys(init);
      forall k ensures k in UnionOf(ms) <==> exists i :: 0 <= i < |ms| && k in ms[i] {
        if k in UnionOf(ms) && k !in last {
          assert k in UnionOf(init);
          var i :| 0 <= i < |init| && k in init[i];
          assert k in ms[i];
        }
        if exists i :: 0 <= i < |ms| && k in ms[i] {
          var i :| 0 <= i < |ms| && k in ms[i];
          if i < |init| {
            assert k in init[i];
          } else {
            assert i == |ms| - 1;
          }
        }
      }
    }
  }

  /** A feature of the union holds exactly the values the matches give it. */
  lemma {:induction false} UnionOfValues(ms: seq<Token>)
    ensures forall k, x :: k in UnionOf(ms) ==>
      (x in UnionOf(ms)[k] <==> exists i :: 0 <= i < |ms| && k in ms[i] && x in ms[i][k])
  {
    if ms != [] {
      var init := ms[..|ms| - 1];
      var last := ms[|ms| - 1];
      UnionOfValues(init);
      UnionOfKeys(init);
      forall k, x | k in UnionOf(ms)
        ensures x in UnionOf(ms)[k] <==> exists i :: 0 <= i < |ms| && k in ms[i] && x in ms[i][k]
      {
        if x in UnionOf(ms)[k] && !(k in last && x in last[k]) {
          assert k in UnionOf(init) && x in UnionOf(init)[k];
          var i :| 0 <= i < |init| && k in init[i] && x in init[i][k];
          assert k in ms[i] && x in ms[i][k];
        }
        if exists i :: 0 <= i < |ms| && k in ms[i] && x in ms[i][k] {
          var i :| 0 <= i < |ms| && k in ms[i] && x in ms[i][k];
          if i < |init| {
            assert k in init[i] && x in init[i][k];
            assert k in UnionOf(init);
          } else {
            assert i == |ms| - 1;
          }
        }
      }
    }
  }

  /** The matches of the atoms against the dicts, position by position; none when any atom fails. */
  function MatchAll(atoms: seq<Atom>, vds: seq<map<string, Value>>): (r: Option<seq<Token>>)
    requires |vds| == |atoms|
    ensures r.None? <==> exists i :: 0 <= i < |atoms| && ValueDictMatches(atoms[i], vds[i]).None?
    ensures r.Some? ==> |r.value| == |atoms| && forall i :: 0 <= i < |atoms| ==> ValueDictMatches(atoms[i], vds[i]) == Some(r.value[i])
  {
    if atoms == [] then Some([])
    else
      var n := |atoms| - 1;
      var prev := MatchAll(atoms[..n], vds[..n]);
      var m := ValueDictMatches(atoms[n], vds[n]);
      if prev.None? then
        var i :| 0 <= i < n && ValueDictMatches(atoms[..n][i], vds[..n][i]).None?;
        assert ValueDictMatches(atoms[i], vds[i]).None?;
        None
      else if m.None? then None
      else Some(prev.value + [m.value])
  }

  /** `Rule.value_dict_sequence_matches` as a value: none on a length mismatch or any failing atom, else the union. */
  function SequenceMatch(r: Rule, vds: seq<map<string, Value>>): Option<map<string, set<string>>> {
    if |vds| != |r.expansion| then None
    else
      match MatchAll(r.expansion, vds)
      case None => None
      case Some(ms) => Some(UnionOf(ms))
  }

  /** The atom agrees on the feature and the dict supplies the value for it. */
  predicate Collects(a: Atom, vd: map<string, Value>, k: string, x: string) {
    k in a.req && a.req[k] == Agree && k in vd && Truthy(vd[k]) && x in AsSet(vd[k])
  }

  /**
   * A sequence match fails iff the lengths differ or some atom's requirement is contradicted; on
   * success every feature's values are those the agreeing atoms collected.
   */
  lemma SequenceMatchSpec(r: Rule, vds: seq<map<string, Value>>)
    ensures SequenceMatch(r, vds).None? <==>
              (|vds| != |r.expansion| || exists i :: 0 <= i < |vds| && Contradicts(r.expansion[i], vds[i]))
    ensures SequenceMatch(r, vds).Some? ==> forall k, x :: k in SequenceMatch(r, vds).value ==>
              (x in SequenceMatch(r, vds).value[k] <==> exists i :: 0 <= i < |vds| && Collects(r.expansion[i], vds[i], k, x))
  {
    if |vds| == |r.expansion| {
      var all := MatchAll(r.expansion, vds);
      if all.Some? {
        var ms := all.value;
        UnionOfKeys(ms);
        UnionOfValues(ms);
        var u := UnionOf(ms);
        forall i | 0 <= i < |vds| ensures !Contradicts(r.expansion[i], vds[i]) {
          assert ValueDictMatches(r.expansion[i], vds[i]).Some?;
        }
        forall k, x | k in u ensures x in u[k] <==> exists i :: 0 <= i < |vds| && Collects(r.expansion[i], vds[i], k, x) {
          if x in u[k] {
            var i :| 0 <= i < |ms| && k in ms[i] && x in ms[i][k];
            assert ValueDictMatches(r.expansion[i], vds[i]) == Some(ms[i]);
            assert Collects(r.expansion[i], vds[i], k, x);
          }
          if exists i :: 0 <= i < |vds| && Collects(r.expansion[i], vds[i], k, x) {
            var i :| 0 <= i < |vds| && Collects(r.expansion[i], vds[i], k, x);
            assert ValueDictMatches(r.expansion[i], vds[i]) == Some(ms[i]);
            assert k in ms[i] && x in ms[i][k];
          }
        }
      } else {
        var i :| 0 <= i < |vds| && ValueDictMatches(r.expansion[i], vds[i]).None?;
        assert Contradicts(r.expansion[i], vds[i]);
      }
    }
  }

  /** The matches folded into one dict, feature by feature. */
  method Union(ms: seq<Token>) returns (u: map<string, set<string>>)
    ensures u == UnionOf(ms)
  {
    u := map[];
    for i := 0 to |ms|
      invariant u == UnionOf(ms[..i])
    {
      assert ms[..i + 1][..i] == ms[..i];
      u := Merge(u, ms[i]);
    }
    assert ms[..|ms|] == ms;
  }

  /** Matching every atom position by position is what `MatchAll` computes. */
  lemma MatchAllPointwise(atoms: seq<Atom>, vds: seq<map<string, Value>>, ms: seq<Token>)
    requires |vds| == |atoms| && |ms| == |atoms|
    requires forall i :: 0 <= i < |atoms| ==> ValueDictMatches(atoms[i], vds[i]) == Some(ms[i])
    ensures MatchAll(atoms, vds) == Some(ms)
  {
    var all := MatchAll(atoms, vds);
    assert all.Some?;
    assert all.value == ms by {
      forall i | 0 <= i < |ms| ensures all.value[i] == ms[i] {
        assert ValueDictMatches(atoms[i], vds[i]) == Some(all.value[i]);
      }
    }
  }

  /** `Rule.value_dict_sequence_matches`: the atoms matched in turn, then each match folded into the union. */
  method RuleSequenceMatches(r: Rule, vds: seq<map<string, Value>>) returns (res: Option<map<string, set<string>>>)
    ensures res == SequenceMatch(r, vds)
  {
    if |vds| != |r.expansion| {
      return None;
    }
    var matchSeq := seq(|vds|, i requires 0 <= i < |vds| => ValueDictMatches(r.expansion[i], vds[i]));
    if exists i :: 0 <= i < |matchSeq| && matchSeq[i].None? {
      var i :| 0 <= i < |matchSeq| && matchSeq[i].None?;
      assert ValueDictMatches(r.expansion[i], vds[i]).None?;
      return None;
    }
    var ms := seq(|matchSeq|, i requires 0 <= i < |matchSeq| => matchSeq[i].value);
    MatchAllPointwise(r.expansion, vds, ms);
    var u := Union(ms);
    return Some(u);
  }

  // ---------------------------------------------------------------------------------------------
  // Grammar

  /** Rules grouped by head name; `names` is the dict's key order. */
  datatype Grammar = Grammar(names: seq<string>, rules: map<string, seq<Rule>>)

  /** The key order and the grouping agree, and no name repeats. */
  predicate WellFormed(g: Grammar) {
    g.rules.Keys == (set n | n in g.names) &&
    forall i, j :: 0 <= i < j < |g.names| ==> g.names[i] != g.names[j]
  }

  function Heads(rs: seq<Rule>): (hs: seq<string>)
    ensures |hs| == |rs| && forall i :: 0 <= i < |rs| ==> hs[i] == rs[i].item.name
  {
    seq(|rs|, i requires 0 <= i < |rs| => rs[i].item.name)
  }

  /** The position of the first occurrence of x in s. */
  function FirstAt(s: seq<string>, x: string): (k: nat)
    requires x in s
    ensures k < |s| && s[k] == x && x !in s[..k]
  {
    if s[0] == x then 0
    else
      var k := FirstAt(s[1..], x);
      assert s[..k + 1] == [s[0]] + s[1..][..k];
      k + 1
  }

  /** Appending an element keeps the first positions of the elements already there. */
  lemma {:induction false} FirstAtSnoc(s: seq<string>, x: string, y: string)
    requires y in s + [x]
    ensures FirstAt(s + [x], y) == if y in s then FirstAt(s, y) else |s|
  {
    if s != [] && s[0] != y {
      assert (s + [x])[1..] == s[1..] + [x];
      FirstAtSnoc(s[1..], x, y);
    }
  }

  /** The names in order of first appearance. */
  function Dedup(s: seq<string>): (r: seq<string>)
    ensures forall x :: x in r <==> x in s
    ensures forall i, j :: 0 <= i < j < |r| ==> r[i] != r[j]
    ensures forall i, j {:trigger FirstAt(s, r[i]), FirstAt(s, r[j])} :: 0 <= i < j < |r| ==> FirstAt(s, r[i]) < FirstAt(s, r[j])
  {
    if s == [] then []
    else
      var init := s[..|s| - 1];
      var x := s[|s| - 1];
      var p := Dedup(init);
      assert s == init + [x];
      FirstAtSnocAll(init, x);
      if x in p then p else p + [x]
  }

  lemma FirstAtSnocAll(s: seq<string>, x: string)
    ensures forall y :: y in s ==> FirstAt(s + [x], y) == FirstAt(s, y)
    ensures x !in s ==> FirstAt(s + [x], x) == |s|
  {
    forall y | y in s ensures FirstAt(s + [x], y) == FirstAt(s, y) {
      FirstAtSnoc(s, x, y);
    }
    if x !in s {
      FirstAtSnoc(s, x, x);
    }
  }

  /** The rules with the given head name, in order. */
  function WithHead(rs: seq<Rule>, n: string): (r: seq<Rule>)
    ensures forall x :: x in r ==> x in rs && x.item.name == n
    ensures r != [] <==> exists i :: 0 <= i < |rs| && rs[i].item.name == n
  {
    if rs == [] then []
    else
      var init := rs[..|rs| - 1];
      var p := WithHead(init, n);
      assert forall i :: 0 <= i < |init| ==> init[i] == rs[i];
      if rs[|rs| - 1].item.name == n then p + [rs[|rs| - 1]] else p
  }

  /** The grouping dict: each rule appended to its head name's list. */
  function Groups(rs: seq<Rule>): map<string, seq<Rule>> {
    if rs == [] then map[]
    else
      var p := Groups(rs[..|rs| - 1]);
      var r := rs[|rs| - 1];
      p[r.item.name := (if r.item.name in p then p[r.item.name] else []) + [r]]
  }

  /** The grammar a rule list builds. */
  function GrammarOf(rs: seq<Rule>): Grammar {
    Grammar(Dedup(Heads(rs)), Groups(rs))
  }

  /** The group of a name holds exactly the rules with that head, in order; only head names are keys. */
  lemma {:induction false} GroupsSpec(rs: seq<Rule>)
    ensures forall n :: n in Groups(rs) <==> n in Heads(rs)
    ensures forall n :: n in Groups(rs) ==> Groups(rs)[n] == WithHead(rs, n)
  {
    if rs != [] {
      var init := rs[..|rs| - 1];
      var r := rs[|rs| - 1];
      GroupsSpec(init);
      assert Heads(rs) == Heads(init) + [r.item.name];
      forall n | n in Groups(rs) ensures Groups(rs)[n] == WithHead(rs, n) {
        if n == r.item.name && n !in Groups(init) {
          assert WithHead(init, n) == [];
        }
      }
    }
  }

  /**
   * `Grammar(rules)`: one entry per head name, in order of first appearance, holding exactly the
   * rules with that head in their order; a name with no rule is not a key.
   */
  lemma GrammarOfSpec(rs: seq<Rule>)
    ensures WellFormed(GrammarOf(rs))
    ensures forall n :: n in GrammarOf(rs).rules <==> exists i :: 0 <= i < |rs| && rs[i].item.name == n
    ensures forall n :: n in GrammarOf(rs).rules ==> GrammarOf(rs).rules[n] == WithHead(rs, n) && WithHead(rs, n) != []
  {
    GroupsSpec(rs);
    var hs := Heads(rs);
    forall n ensures n in GrammarOf(rs).rules <==> exists i :: 0 <= i < |rs| && rs[i].item.name == n {
      if n in hs {
        var i :| 0 <= i < |hs| && hs[i] == n;
        assert rs[i].item.name == n;
      }
    }
  }

  /** One more rule: its head joins the names if new, and the rule joins its head's group. */
  lemma GrammarOfStep(rs: seq<Rule>, i: nat)
    requires i < |rs|
    ensures var n := rs[i].item.name;
            var p := Groups(rs[..i]);
            Dedup(Heads(rs[..i + 1])) == Dedup(Heads(rs[..i])) + (if n in p then [] else [n]) &&
            Groups(rs[..i + 1]) == p[n := (if n in p then p[n] else []) + [rs[i]]]
  {
    var pre := rs[..i];
    GroupsSpec(pre);
    var next := rs[..i + 1];
    assert next[..i] == pre;
    var hs := Heads(next);
    assert hs[..|hs| - 1] == Heads(pre);
  }

  /** `Grammar.__init__`: the rules are appended to their head's list, new heads in order. */
  method NewGrammar(rs: seq<Rule>) returns (g: Grammar)
    ensures g == GrammarOf(rs)
  {
    var names: seq<string> := [];
    var byName: map<string, seq<Rule>> := map[];
    for i := 0 to |rs|
      invariant names == Dedup(Heads(rs[..i]))
      invariant byName == Groups(rs[..i])
    {
      GrammarOfStep(rs, i);
      var n := rs[i].item.name;
      if n !in byName {
        names := names + [n];
      }
      byName := byName[n := (if n in byName then byName[n] else []) + [rs[i]]];
    }
    assert rs[..|rs|] == rs;
    g := Grammar(names, byName);
  }

  /** A generated sequence after every token was made single. */
  type Sequence = seq<map<string, string>>

  const CannotSingle: string := "Cannot make sequence single"

  /** The tokens made single in turn; none when any of them fails. */
  function AllSingled(tokens: seq<Token>): (r: Option<Sequence>)
    requires forall i :: 0 <= i < |tokens| ==> ValidToken(tokens[i])
    ensures r.None? <==> exists i :: 0 <= i < |tokens| && Singled(tokens[i], []).None?
    ensures r.Some? ==> |r.value| == |tokens| && forall i :: 0 <= i < |tokens| ==> Singled(tokens[i], []) == Some(r.value[i])
  {
    if exists i :: 0 <= i < |tokens| && Singled(tokens[i], []).None? then None
    else Some(seq(|tokens|, i requires 0 <= i < |tokens| => Singled(tokens[i], []).value))
  }

  /**
   * The loop of `Grammar.generate_based_on` over a rule list: rules that reject or expand to
   * nothing are skipped, and a sequence that cannot be made single raises.
   */
  function Generated(rs: seq<Rule>, vd: map<string, string>): Result<seq<Sequence>> {
    if rs == [] then Ok([]) else AddRule(Generated(rs[..|rs| - 1], vd), rs[|rs| - 1], vd)
  }

  /** One more rule tried after the earlier ones. */
  function AddRule(prev: Result<seq<Sequence>>, r: Rule, vd: map<string, string>): Result<seq<Sequence>> {
    match prev
    case Err(m) => Err(m)
    case Ok(done) =>
      match RuleGenerate(r, vd)
      case None => Ok(done)
      case Some(tokens) =>
        if tokens == [] then Ok(done)
        else
          match AllSingled(tokens)
          case None => Err(CannotSingle)
          case Some(s) => Ok(done + [s])
  }

  /** Once a rule raises, the later rules are never tried. */
  lemma {:induction false} GeneratedErrSticks(rs: seq<Rule>, n: nat, vd: map<string, string>)
    requires n <= |rs| && Generated(rs[..n], vd).Err?
    ensures Generated(rs, vd) == Generated(rs[..n], vd)
  {
    if n < |rs| {
      var init := rs[..|rs| - 1];
      assert init[..n] == rs[..n];
      GeneratedErrSticks(init, n, vd);
    } else {
      assert rs[..n] == rs;
    }
  }

  /** The rules up to and including the i-th are the earlier ones plus that rule. */
  lemma GeneratedStep(rs: seq<Rule>, i: nat, vd: map<string, string>)
    requires i < |rs|
    ensures Generated(rs[..i + 1], vd) == AddRule(Generated(rs[..i], vd), rs[i], vd)
  {
    assert rs[..i + 1][..i] == rs[..i];
  }

  /** `Grammar.generate_based_on`: an unknown rule name raises a key error. */
  function GrammarGenerate(g: Grammar, name: string, vd: map<string, string>): Result<seq<Sequence>> {
    if name !in g.rules then Err("KeyError: " + name) else Generated(g.rules[name], vd)
  }

  /** Rules whose expansion tokens hold one value per feature. */
  predicate SingleRule(r: Rule) {
    forall i :: 0 <= i < |r.expansion| ==> SingleValued(r.expansion[i].req)
  }

  /**
   * Generation never raises for rules built from single values, and yields at most one sequence
   * per rule; when every rule rejects, it yields nothing.
   */
  lemma {:induction false} GeneratedBounds(rs: seq<Rule>, vd: map<string, string>)
    ensures Generated(rs, vd).Ok? ==> |Generated(rs, vd).value| <= |rs|
    ensures (forall i :: 0 <= i < |rs| ==> SingleRule(rs[i])) ==> Generated(rs, vd).Ok?
    ensures (forall i :: 0 <= i < |rs| ==> Rejects(rs[i].item.req, vd)) ==> Generated(rs, vd) == Ok([])
  {
    if rs != [] {
      var init := rs[..|rs| - 1];
      var last := rs[|rs| - 1];
      GeneratedBounds(init, vd);
      if (forall i :: 0 <= i < |rs| ==> SingleRule(rs[i])) {
        assert forall i :: 0 <= i < |init| ==> SingleRule(init[i]) by {
          forall i | 0 <= i < |init| ensures SingleRule(init[i]) { assert init[i] == rs[i]; }
        }
        var s := RuleGenerate(last, vd);
        if s.Some? {
          assert SingleRule(last);
          forall i | 0 <= i < |s.value| ensures Singled(s.value[i], []).Some? {
            AgreeKeepsSingleValued(last.expansion[i].req, vd);
            SingledWithoutMerge(s.value[i]);
          }
        }
      }
      if (forall i :: 0 <= i < |rs| ==> Rejects(rs[i].item.req, vd)) {
        assert forall i :: 0 <= i < |init| ==> Rejects(init[i].item.req, vd) by {
          forall i | 0 <= i < |init| ensures Rejects(init[i].item.req, vd) { assert init[i] == rs[i]; }
        }
        assert Rejects(last.item.req, vd);
      }
    }
  }

  /** `[s.to_single_value() for s in sequence]`: every token is tried, failures included. */
  method SingleAll(ts: seq<Token>) returns (singles: seq<Option<map<string, string>>>)
    requires forall k :: 0 <= k < |ts| ==> ValidToken(ts[k])
    ensures |singles| == |ts| && forall k :: 0 <= k < |ts| ==> singles[k] == Singled(ts[k], [])
  {
    singles := [];
    for j := 0 to |ts|
      invariant |singles| == j && forall k :: 0 <= k < j ==> singles[k] == Singled(ts[k], [])
    {
      var s := ToSingleValue(ts[j], []);
      singles := singles + [s];
    }
  }

  lemma AllSingledIs(ts: seq<Token>, sequence: Sequence)
    requires forall k :: 0 <= k < |ts| ==> ValidToken(ts[k])
    requires |sequence| == |ts| && forall k :: 0 <= k < |ts| ==> Singled(ts[k], []) == Some(sequence[k])
    ensures AllSingled(ts) == Some(sequence)
  {
    var all := AllSingled(ts);
    assert all.Some?;
    assert all.value == sequence;
  }

  /** `Grammar.generate_based_on`: the group's rules tried in order, tokens made single in place. */
  method GenerateBasedOn(g: Grammar, name: string, vd: map<string, string>) returns (r: Result<seq<Sequence>>)
    ensures r == GrammarGenerate(g, name, vd)
  {
    if name !in g.rules {
      return Err("KeyError: " + name);
    }
    var rs := g.rules[name];
    var sequences: seq<Sequence> := [];
    for i := 0 to |rs|
      invariant Generated(rs[..i], vd) == Ok(sequences)
    {
      GeneratedStep(rs, i, vd);
      var tokens := RuleGenerate(rs[i], vd);
      if tokens.None? || tokens.value == [] {
        continue;
      }
      var ts := tokens.value;
      var singles := SingleAll(ts);
      if exists k :: 0 <= k < |singles| && singles[k].None? {
        assert AllSingled(ts).None?;
        GeneratedErrSticks(rs, i + 1, vd);
        return Err(CannotSingle);
      }
      var sequence := seq(|singles|, k requires 0 <= k < |singles| => singles[k].value);
      AllSingledIs(ts, sequence);
      sequences := sequences + [sequence];
    }
    assert rs[..|rs|] == rs;
    return Ok(sequences);
  }

  /** The matches of one group's rules, skipping failed and empty ones. */
  function RuleMatches(name: string, rs: seq<Rule>, vds: seq<map<string, Value>>): seq<(string, map<string, set<string>>)> {
    if rs == [] then []
    else
      var m := SequenceMatch(rs[|rs| - 1], vds);
      RuleMatches(name, rs[..|rs| - 1], vds) + (if m.Some? && m.value != map[] then [(name, m.value)] else [])
  }

  /** The matches of the groups, in key order. */
  function NameMatches(g: Grammar, names: seq<string>, vds: seq<map<string, Value>>): seq<(string, map<string, set<string>>)>
    requires forall n :: n in names ==> n in g.rules
  {
    if names == [] then []
    else
      NameMatches(g, names[..|names| - 1], vds) + RuleMatches(names[|names| - 1], g.rules[names[|names| - 1]], vds)
  }

  /** A pair (name, match) that some rule of the group produces. */
  predicate Produced(name: string, rs: seq<Rule>, vds: seq<map<string, Value>>, p: (string, map<string, set<string>>)) {
    p.0 == name && p.1 != map[] && exists i :: 0 <= i < |rs| && SequenceMatch(rs[i], vds) == Some(p.1)
  }

  /** Each reported match is a non-empty match of a rule in the named group. */
  lemma {:induction false} RuleMatchesSound(name: string, rs: seq<Rule>, vds: seq<map<string, Value>>)
    ensures forall p :: p in RuleMatches(name, rs, vds) ==> Produced(name, rs, vds, p)
  {
    if rs != [] {
      var init := rs[..|rs| - 1];
      var m := SequenceMatch(rs[|rs| - 1], vds);
      RuleMatchesSound(name, init, vds);
      assert RuleMatches(name, rs, vds) == RuleMatches(name, init, vds) + (if m.Some? && m.value != map[] then [(name, m.value)] else []);
      forall p | p in RuleMatches(name, rs, vds) ensures Produced(name, rs, vds, p) {
        if p in RuleMatches(name, init, vds) {
          assert Produced(name, init, vds, p);
          var i :| 0 <= i < |init| && SequenceMatch(init[i], vds) == Some(p.1);
          assert rs[i] == init[i];
        } else {
          assert SequenceMatch(rs[|rs| - 1], vds) == Some(p.1);
        }
      }
    }
  }

  /** Every rule of the group with a non-empty match is reported. */
  lemma {:induction false} RuleMatchesComplete(name: string, rs: seq<Rule>, vds: seq<map<string, Value>>)
    ensures forall i :: 0 <= i < |rs| && SequenceMatch(rs[i], vds).Some? && SequenceMatch(rs[i], vds).value != map[] ==>
      (name, SequenceMatch(rs[i], vds).value) in RuleMatches(name, rs, vds)
  {
    if rs != [] {
      var init := rs[..|rs| - 1];
      var m := SequenceMatch(rs[|rs| - 1], vds);
      RuleMatchesComplete(name, init, vds);
      assert RuleMatches(name, rs, vds) == RuleMatches(name, init, vds) + (if m.Some? && m.value != map[] then [(name, m.value)] else []);
      var before := RuleMatches(name, init, vds);
      forall i | 0 <= i < |rs| && SequenceMatch(rs[i], vds).Some? && SequenceMatch(rs[i], vds).value != map[]
        ensures (name, SequenceMatch(rs[i], vds).value) in RuleMatches(name, rs, vds)
      {
        var p := (name, SequenceMatch(rs[i], vds).value);
        if i < |init| {
          assert rs[i] == init[i];
          assert p in before;
        } else {
          assert i == |rs| - 1;
          assert p == (name, m.value);
        }
      }
    }
  }

  /** One group's rules matched in turn, keeping the non-empty matches. */
  method GroupMatches(name: string, rs: seq<Rule>, vds: seq<map<string, Value>>) returns (found: seq<(string, map<string, set<string>>)>)
    ensures found == RuleMatches(name, rs, vds)
  {
    found := [];
    for j := 0 to |rs|
      invariant found == RuleMatches(name, rs[..j], vds)
    {
      assert rs[..j + 1][..j] == rs[..j];
      var m := RuleSequenceMatches(rs[j], vds);
      if m.None? || m.value == map[] {
        continue;
      }
      found := found + [(name, m.value)];
    }
    assert rs[..|rs|] == rs;
  }

  /** `Grammar.value_dict_sequence_matches`: every group in key order, every rule in group order. */
  method SequenceMatches(g: Grammar, vds: seq<map<string, Value>>) returns (matches: seq<(string, map<string, set<string>>)>)
    requires WellFormed(g)
    ensures matches == NameMatches(g, g.names, vds)
  {
    matches := [];
    for i := 0 to |g.names|
      invariant matches == NameMatches(g, g.names[..i], vds)
    {
      var name := g.names[i];
      var found := GroupMatches(name, g.rules[name], vds);
      assert g.names[..i + 1][..i] == g.names[..i];
      matches := matches + found;
    }
    assert g.names[..|g.names|] == g.names;
  }

  /** Every reported pair names a group of the grammar and a non-empty match of one of its rules. */
  lemma {:induction false} NameMatchesSound(g: Grammar, names: seq<string>, vds: seq<map<string, Value>>)
    requires forall n :: n in names ==> n in g.rules
    ensures forall p :: p in NameMatches(g, names, vds) ==> p.0 in names && Produced(p.0, g.rules[p.0], vds, p)
  {
    if names != [] {
      var init := names[..|names| - 1];
      var last := names[|names| - 1];
      assert forall n :: n in init ==> n in names;
      NameMatchesSound(g, init, vds);
      RuleMatchesSound(last, g.rules[last], vds);
      var before := NameMatches(g, init, vds);
      var here := RuleMatches(last, g.rules[last], vds);
      assert NameMatches(g, names, vds) == before + here;
      forall p | p in NameMatches(g, names, vds) ensures p.0 in names && Produced(p.0, g.rules[p.0], vds, p) {
        if p in before {
          assert p.0 in init;
        } else {
          assert p in here;
          assert p.0 == last;
        }
      }
    }
  }

  /** Every non-empty match of a rule of a listed group is reported. */
  lemma {:induction false} NameMatchesComplete(g: Grammar, names: seq<string>, vds: seq<map<string, Value>>)
    requires forall n :: n in names ==> n in g.rules
    ensures forall n, i :: (n in names && 0 <= i < |g.rules[n]| && SequenceMatch(g.rules[n][i], vds).Some? &&
                            SequenceMatch(g.rules[n][i], vds).value != map[]) ==>
                           (n, SequenceMatch(g.rules[n][i], vds).value) in NameMatches(g, names, vds)
  {
    if names != [] {
      var init := names[..|names| - 1];
      var last := names[|names| - 1];
      assert forall n :: n in init ==> n in names;
      NameMatchesComplete(g, init, vds);
      RuleMatchesComplete(last, g.rules[last], vds);
      var before := NameMatches(g, init, vds);
      var here := RuleMatches(last, g.rules[last], vds);
      assert NameMatches(g, names, vds) == before + here;
      forall n, i | n in names && 0 <= i < |g.rules[n]| && SequenceMatch(g.rules[n][i], vds).Some? &&
        SequenceMatch(g.rules[n][i], vds).value != map[]
        ensures (n, SequenceMatch(g.rules[n][i], vds).value) in NameMatches(g, names, vds)
      {
        var p := (n, SequenceMatch(g.rules[n][i], vds).value);
        if n == last {
          assert p in here;
        } else {
          assert n in init by { assert names == init + [last]; }
          assert p in before;
        }
      }
    }
  }

  // ---------------------------------------------------------------------------------------------
  // The Romanian verb grammar

  /** `from_tag` on the Romanian dictionary; an unknown category's none fails at the first `|`. */
  function FromTag(tag: string): Result<map<string, string>> {
    match DictFeaturesFromTag(RoMorphoDictionary(), tag, map[])
    case Err(m) => Err(m)
    case Ok(None) => Err("unsupported operand type(s) for |: 'NoneType' and 'dict'")
    case Ok(Some(d)) => Ok(d)
  }

  /** The tags decoded in turn; the first failure raises. */
  function DecodeAll(tags: seq<string>): (r: Result<seq<map<string, string>>>)
    ensures r.Ok? ==> |r.value| == |tags| && forall i :: 0 <= i < |tags| ==> FromTag(tags[i]) == Ok(r.value[i])
    ensures r.Err? <==> exists i :: 0 <= i < |tags| && FromTag(tags[i]).Err?
  {
    if tags == [] then Ok([])
    else
      match FromTag(tags[0])
      case Err(m) => Err(m)
      case Ok(d) =>
        match DecodeAll(tags[1..])
        case Err(m) =>
          var i :| 0 <= i < |tags[1..]| && FromTag(tags[1..][i]).Err?;
          assert FromTag(tags[i + 1]).Err?;
          Err(m)
        case Ok(ds) => Ok([d] + ds)
  }

  /** PARTICIPLE, INFINITIVE, INDICATIVE_PRES, SUBJ_PRESENT, AUX_VERB, AUX_INF, SA, O, A. */
  const RoTags: seq<string> := ["Vmp--sm", "Vmn", "Vmip", "Vmsp", "Va", "Van", "Qs", "Qf", "Qn"]

  const Pers: map<string, string> := map["Person" := AgreeValue]
  const Num: map<string, string> := map["Number" := AgreeValue]
  const Lemma: map<string, string> := map["lemma" := AgreeValue]

  /** A head atom: Person, Number and lemma all agree. */
  function AgreeHead(name: string): Atom {
    Atom(name, NewToken(Strings(Pers + Num + Lemma)))
  }

  /** An expansion atom built from string features. */
  function Part(name: string, d: map<string, string>): (a: Atom)
    ensures a.name == name && SingleValued(a.req) && ValidToken(a.req)
  {
    StringTokenSingleValued(d);
    Atom(name, NewToken(Strings(d)))
  }

  const Subjunctive12Head: Token := NewToken(map["Person" := Strs({"1", "2"}), "Number" := Str(AgreeValue), "lemma" := Str(AgreeValue)])
  const Subjunctive3Head: Token := NewToken(map["Person" := Strs({"3"}), "Number" := Str(AgreeValue), "lemma" := Str(AgreeValue)])

  /** The seven rules, in the order the grammar receives them. */
  function RoVerbRules(ds: seq<map<string, string>>): (rs: seq<Rule>)
    requires |ds| == 9
    ensures |rs| == 7 && Heads(rs) == RoHeads
    ensures forall i :: 0 <= i < 7 ==> SingleRule(rs[i])
    ensures rs[5].item.req == Subjunctive12Head && |rs[5].expansion| == 2
    ensures rs[6].item.req == Subjunctive3Head && |rs[6].expansion| == 2
  {
    var participle := ds[0];
    var infinitive := ds[1];
    var indicativePres := ds[2];
    var subjPresent := ds[3];
    var auxVerb := ds[4];
    var auxInf := ds[5];
    var sa := ds[6];
    var pastPerfect := Rule(AgreeHead("PastPerfect"), [
      Part("Aux", auxVerb + Pers + Num + map["lemma" := "avea", "Special" := "Ind"]),
      Part("Participle", participle + Lemma)]);
    var future := Rule(AgreeHead("Future"), [
      Part("Aux", auxVerb + Pers + Num + map["lemma" := "vrea"]),
      Part("Infinitive", infinitive + Lemma)]);
    var futurePerfect := Rule(AgreeHead("FuturePerfect"), [
      Part("Aux", auxVerb + Pers + Num + map["lemma" := "vrea"]),
      Part("Fi", auxInf + map["lemma" := "fi"]),
      Part("Participle", participle + Lemma)]);
    var conditional := Rule(AgreeHead("Conditional"), [
      Part("Aux", auxVerb + Pers + Num + map["lemma" := "avea"]),
      Part("Infinitive", infinitive + Lemma)]);
    var conditionalPerfect := Rule(AgreeHead("ConditionalPerfect"), [
      Part("Aux", auxVerb + Pers + Num + map["lemma" := "avea"]),
      Part("Fi", auxInf + map["lemma" := "fi"]),
      Part("Participle", participle + Lemma)]);
    var subjunctive12 := Rule(Atom("Subjunctive", Subjunctive12Head), [
      Part("SA", sa + map["lemma" := "s\U{0103}"]),
      Part("Subj12", indicativePres + Pers + Num + Lemma)]);
    var subjunctive3 := Rule(Atom("Subjunctive", Subjunctive3Head), [
      Part("SA", sa + map["lemma" := "s\U{0103}"]),
      Part("Subj3", subjPresent + Pers + Num + Lemma)]);
    [future, pastPerfect, conditional, futurePerfect, conditionalPerfect, subjunctive12, subjunctive3]
  }

  /** `generateRoVerbGrammar`: the nine tags must decode before the rules are grouped. */
  function RoVerbGrammar(): Result<Grammar> {
    match DecodeAll(RoTags)
    case Err(m) => Err(m)
    case Ok(ds) => Ok(GrammarOf(RoVerbRules(ds)))
  }

  const RoHeads: seq<string> := ["Future", "PastPerfect", "Conditional", "FuturePerfect", "ConditionalPerfect", "Subjunctive", "Subjunctive"]

  /** Six distinct names, the last of them repeated. */
  predicate SixHeads(hs: seq<string>) {
    |hs| == 7 && hs[5] == hs[6] &&
    forall i, j :: 0 <= i < j < 6 ==> hs[i] != hs[j]
  }

  /** The Romanian head names are six distinct names, Subjunctive repeated. */
  lemma RoHeadsSix()
    ensures SixHeads(RoHeads)
  {
    var hs := RoHeads;
    assert hs[1][0] == 'P' && hs[2][0] == 'C' && hs[5][0] == 'S';
    assert |hs[0]| == 6 && |hs[1]| == 11 && |hs[2]| == 11 && |hs[3]| == 13 && |hs[4]| == 18 && |hs[5]| == 11;
  }

  /** Six distinct names, the last repeated, keep the first six. */
  lemma {:induction false} DedupSix(hs: seq<string>)
    requires SixHeads(hs)
    ensures Dedup(hs) == hs[..6]
  {
    DedupDistinct(hs[..6]);
    assert hs[6] in hs[..6] by { assert hs[..6][5] == hs[6]; }
    assert hs[..|hs| - 1] == hs[..6];
  }

  /** Names that are already distinct are kept as they are. */
  lemma {:induction false} DedupDistinct(s: seq<string>)
    requires forall i, j :: 0 <= i < j < |s| ==> s[i] != s[j]
    ensures Dedup(s) == s
  {
    if s != [] {
      var init := s[..|s| - 1];
      DedupDistinct(init);
      assert s[|s| - 1] !in init;
      assert init + [s[|s| - 1]] == s;
    }
  }

  /** Only the last two of seven rules carry the name. */
  lemma RepeatedHeadRules(rs: seq<Rule>, sub: string)
    requires |rs| == 7 && rs[5].item.name == sub && rs[6].item.name == sub
    requires forall i :: 0 <= i < 5 ==> rs[i].item.name != sub
    ensures WithHead(rs, sub) == [rs[5], rs[6]]
  {
    var pre := rs[..5];
    assert WithHead(pre, sub) == [] by {
      assert forall i :: 0 <= i < 5 ==> pre[i] == rs[i];
    }
    var six := rs[..6];
    assert six[..5] == pre;
    assert WithHead(six, sub) == [rs[5]];
    assert rs[..6] == six;
  }

  /**
   * The Romanian grammar groups its rules under six names in the order given, the two subjunctive
   * rules under one name, Subjunctive12 first.
   */
  lemma RoGrouping(rs: seq<Rule>)
    requires Heads(rs) == RoHeads
    ensures GrammarOf(rs).names == ["Future", "PastPerfect", "Conditional", "FuturePerfect", "ConditionalPerfect", "Subjunctive"]
    ensures |rs| == 7 && "Subjunctive" in GrammarOf(rs).rules && GrammarOf(rs).rules["Subjunctive"] == [rs[5], rs[6]]
  {
    RoNames(rs);
    RoSubjunctiveGroup(rs);
  }

  /** The Romanian grammar's names are its six head names in the order given. */
  lemma RoNames(rs: seq<Rule>)
    requires Heads(rs) == RoHeads
    ensures GrammarOf(rs).names == ["Future", "PastPerfect", "Conditional", "FuturePerfect", "ConditionalPerfect", "Subjunctive"]
  {
    RoHeadsSix();
    DedupSix(Heads(rs));
  }

  /** The Romanian grammar's subjunctive group holds its last two rules. */
  lemma RoSubjunctiveGroup(rs: seq<Rule>)
    requires Heads(rs) == RoHeads
    ensures |rs| == 7 && "Subjunctive" in GrammarOf(rs).rules && GrammarOf(rs).rules["Subjunctive"] == [rs[5], rs[6]]
  {
    GroupsSpec(rs);
    var hs := Heads(rs);
    assert |rs| == |hs|;
    assert forall i :: 0 <= i < 7 ==> rs[i].item.name == hs[i];
    assert "Subjunctive" in hs by { assert hs[5] == "Subjunctive"; }
    RepeatedHeadRules(rs, "Subjunctive");
  }

  /** The Subjunctive12 head accepts exactly Persons 1 and 2, or no Person at all. */
  lemma Subjunctive12Person(vd: map<string, string>)
    ensures ApplyValues(Subjunctive12Head, vd).Some? <==> ("Person" in vd ==> vd["Person"] in {"1", "2"})
  {
    var h := Subjunctive12Head;
    assert h.Keys == {"Person", "Number", "lemma"};
    assert h["Person"] == {"1", "2"} && h["Number"] == Agree && h["lemma"] == Agree;
    if "Person" in vd && vd["Person"] !in {"1", "2"} {
      assert Rejects(h, vd);
    }
  }

  /** The Subjunctive3 head accepts exactly Person 3, or no Person at all. */
  lemma Subjunctive3Person(vd: map<string, string>)
    ensures ApplyValues(Subjunctive3Head, vd).Some? <==> ("Person" in vd ==> vd["Person"] == "3")
  {
    var h := Subjunctive3Head;
    assert h.Keys == {"Person", "Number", "lemma"};
    assert h["Person"] == {"3"} && h["Number"] == Agree && h["lemma"] == Agree;
    if "Person" in vd && vd["Person"] != "3" {
      assert Rejects(h, vd);
    }
  }

  /** A rule built from single values that accepts the values yields a sequence that can be made single. */
  lemma SingleRuleSingles(r: Rule, vd: map<string, string>)
    requires SingleRule(r) && RuleGenerate(r, vd).Some?
    ensures AllSingled(RuleGenerate(r, vd).value).Some?
  {
    var ts := RuleGenerate(r, vd).value;
    forall i | 0 <= i < |ts| ensures Singled(ts[i], []).Some? {
      AgreeKeepsSingleValued(r.expansion[i].req, vd);
      SingledWithoutMerge(ts[i]);
    }
  }

  /** Of two rules where exactly one accepts the values, that one yields the only sequence. */
  lemma OnlyOneAccepts(ra: Rule, rb: Rule, vd: map<string, string>, first: bool)
    requires var (pick, other) := if first then (ra, rb) else (rb, ra);
             Rejects(other.item.req, vd) && !Rejects(pick.item.req, vd) && |pick.expansion| > 0 && SingleRule(pick)
    ensures var pick := if first then ra else rb;
            RuleGenerate(pick, vd).Some? && AllSingled(RuleGenerate(pick, vd).value).Some? &&
            Generated([ra, rb], vd) == Ok([AllSingled(RuleGenerate(pick, vd).value).value])
  {
    var pick := if first then ra else rb;
    var rs := [ra, rb];
    assert rs[..1] == [ra] && [ra][..0] == [];
    assert Generated([ra], vd) == AddRule(Ok([]), ra, vd);
    assert Generated(rs, vd) == AddRule(Generated([ra], vd), rb, vd);
    SingleRuleSingles(pick, vd);
    var ts := RuleGenerate(pick, vd).value;
    assert ts != [] by { assert |ts| == |pick.expansion|; }
    var sq := AllSingled(ts).value;
    assert AddRule(Ok([]), pick, vd) == Ok([] + [sq]);
    assert [] + [sq] == [sq];
    if !first {
      assert Generated([ra], vd) == Ok([]);
    }
  }

  /** Of the two subjunctive rules, the one whose Person admits the value yields the only sequence. */
  lemma SubjunctivePick(r12: Rule, r3: Rule, vd: map<string, string>)
    requires r12.item.req == Subjunctive12Head && |r12.expansion| > 0 && SingleRule(r12)
    requires r3.item.req == Subjunctive3Head && |r3.expansion| > 0 && SingleRule(r3)
    requires "Person" in vd && vd["Person"] in {"1", "2", "3"}
    ensures var pick := if vd["Person"] == "3" then r3 else r12;
            RuleGenerate(pick, vd).Some? && AllSingled(RuleGenerate(pick, vd).value).Some? &&
            Generated([r12, r3], vd) == Ok([AllSingled(RuleGenerate(pick, vd).value).value])
  {
    Subjunctive12Person(vd);
    Subjunctive3Person(vd);
    OnlyOneAccepts(r12, r3, vd, vd["Person"] != "3");
  }

  /**
   * In the Romanian grammar, whatever the nine tags decode to, a subjunctive of Person 3 comes only
   * from Subjunctive3 and one of Person 1 or 2 only from Subjunctive12: exactly one sequence, that
   * rule's tokens.
   */
  lemma RoSubjunctiveByPerson(ds: seq<map<string, string>>, vd: map<string, string>)
    requires |ds| == 9 && "Person" in vd && vd["Person"] in {"1", "2", "3"}
    ensures var g := GrammarOf(RoVerbRules(ds));
            "Subjunctive" in g.rules && |g.rules["Subjunctive"]| == 2
    ensures var g := GrammarOf(RoVerbRules(ds));
            var pick := if vd["Person"] == "3" then g.rules["Subjunctive"][1] else g.rules["Subjunctive"][0];
            RuleGenerate(pick, vd).Some? && AllSingled(RuleGenerate(pick, vd).value).Some? &&
            GrammarGenerate(g, "Subjunctive", vd) == Ok([AllSingled(RuleGenerate(pick, vd).value).value])
  {
    var all := RoVerbRules(ds);
    RoGrouping(all);
    SubjunctivePick(all[5], all[6], vd);
  }
}
