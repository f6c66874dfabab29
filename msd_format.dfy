/**
 * The MULTEXT-East morphosyntactic tag codec (server/ro_form_gen/msd_format.py). A class is a
 * one-character category followed by an ordered list of features, some positions unused. A tag is
 * the category followed by one symbol per feature, '-' for an unspecified one, with trailing '-'
 * stripped. Decoding turns a tag back into a dict of feature names and value names.
 *
 * A feature's symbol table is a Python dict; it is modelled as its entries in insertion order.
 * Lookups take the last entry with the key, as a dict built from a literal does.
 */
module MsdFormat {
  import opened Wrappers

  /** The symbol of an unspecified position (`MorphoClass.ANY`). */
  const Any: char := '-'

  /** A symbol table: (symbol, value name) entries in insertion order. */
  type Table = seq<(char, string)>

  /** The index of the last entry with symbol sym, or -1 when there is none. */
  function LastSymbol(t: Table, sym: char): (i: int)
    ensures -1 <= i < |t|
    ensures i >= 0 ==> t[i].0 == sym
    ensures forall j :: i < j < |t| ==> t[j].0 != sym
  {
    if t == [] then -1
    else if t[|t| - 1].0 == sym then |t| - 1
    else LastSymbol(t[..|t| - 1], sym)
  }

  /** The index of the last entry with value name v, or -1 when there is none. */
  function LastValue(t: Table, v: string): (i: int)
    ensures -1 <= i < |t|
    ensures i >= 0 ==> t[i].1 == v
    ensures forall j :: i < j < |t| ==> t[j].1 != v
  {
    if t == [] then -1
    else if t[|t| - 1].1 == v then |t| - 1
    else LastValue(t[..|t| - 1], v)
  }

  /** `values[sym]`: the value name a symbol stands for. */
  function ValueOf(t: Table, sym: char): Option<string> {
    var i := LastSymbol(t, sym);
    if i < 0 then None else Some(t[i].1)
  }

  /** `{v: k for k, v in values.items()}[v]`: the symbol of a value name; the last entry holding it wins. */
  function SymbolOf(t: Table, v: string): Option<char> {
    var i := LastValue(t, v);
    if i < 0 then None else Some(t[i].0)
  }

  predicate HasSymbol(t: Table, sym: char) {
    LastSymbol(t, sym) >= 0
  }

  lemma NoSymbol(t: Table, sym: char)
    requires forall i :: 0 <= i < |t| ==> t[i].0 != sym
    ensures !HasSymbol(t, sym)
  {
  }

  /** A dict's keys are distinct. */
  predicate DistinctSymbols(t: Table) {
    forall i, j :: 0 <= i < j < |t| ==> t[i].0 != t[j].0
  }

  /** No two symbols stand for the same value name. */
  predicate DistinctValues(t: Table) {
    forall i, j :: 0 <= i < j < |t| ==> t[i].1 != t[j].1
  }

  /** In a dict, the symbol found for a value name decodes to that value name. */
  lemma SymbolThenValue(t: Table, v: string)
    requires DistinctSymbols(t) && SymbolOf(t, v).Some?
    ensures ValueOf(t, SymbolOf(t, v).value) == Some(v)
  {
    var i := LastValue(t, v);
    var j := LastSymbol(t, t[i].0);
    assert j >= i;
  }

  /** With distinct value names, the value a symbol decodes to is encoded by that symbol. */
  lemma ValueThenSymbol(t: Table, sym: char)
    requires DistinctValues(t) && ValueOf(t, sym).Some?
    ensures SymbolOf(t, ValueOf(t, sym).value) == Some(sym)
  {
    var j := LastSymbol(t, sym);
    var i := LastValue(t, t[j].1);
    assert i >= j;
  }

  /** a's entries, each with b's value name when b has its symbol. */
  function Overlaid(a: Table, b: Table): (o: Table)
    ensures |o| == |a|
    ensures forall i {:trigger o[i]} :: 0 <= i < |a| ==> o[i].0 == a[i].0
    ensures forall i {:trigger o[i]} :: 0 <= i < |a| ==> o[i].1 == if HasSymbol(b, a[i].0) then ValueOf(b, a[i].0).value else a[i].1
  {
    if a == [] then []
    else
      var e := a[|a| - 1];
      Overlaid(a[..|a| - 1], b) + [(e.0, if HasSymbol(b, e.0) then ValueOf(b, e.0).value else e.1)]
  }

  /** b's entries whose symbol a lacks, in b's order. */
  function NewEntries(b: Table, a: Table): Table {
    if b == [] then []
    else NewEntries(b[..|b| - 1], a) + (if HasSymbol(a, b[|b| - 1].0) then [] else [b[|b| - 1]])
  }

  /** `a | b` on dicts: a's keys in order with b's value name where b has the key, then b's new keys. */
  function Union(a: Table, b: Table): Table {
    Overlaid(a, b) + NewEntries(b, a)
  }

  lemma LastSymbolSnoc(t: Table, e: (char, string), sym: char)
    ensures LastSymbol(t + [e], sym) == if e.0 == sym then |t| else LastSymbol(t, sym)
  {
    assert (t + [e])[..|t|] == t;
  }

  /** Lookup in a concatenation: the later part wins. */
  lemma {:induction false} ConcatLookup(x: Table, y: Table, sym: char)
    ensures HasSymbol(x + y, sym) <==> HasSymbol(x, sym) || HasSymbol(y, sym)
    ensures ValueOf(x + y, sym) == if HasSymbol(y, sym) then ValueOf(y, sym) else ValueOf(x, sym)
    decreases |y|
  {
    if y != [] {
      var y' := y[..|y| - 1];
      assert x + y == (x + y') + [y[|y| - 1]];
      LastSymbolSnoc(x + y', y[|y| - 1], sym);
      LastSymbolSnoc(y', y[|y| - 1], sym);
      assert y' + [y[|y| - 1]] == y;
      ConcatLookup(x, y', sym);
    } else {
      assert x + y == x;
    }
  }

  lemma {:induction false} OverlaidLookup(a: Table, b: Table, sym: char)
    ensures LastSymbol(Overlaid(a, b), sym) == LastSymbol(a, sym)
    ensures ValueOf(Overlaid(a, b), sym) == if HasSymbol(a, sym) && HasSymbol(b, sym) then ValueOf(b, sym) else ValueOf(a, sym)
  {
    if a != [] {
      var a' := a[..|a| - 1];
      var e := a[|a| - 1];
      OverlaidLookup(a', b, sym);
      var o := Overlaid(a', b);
      var e' := (e.0, if HasSymbol(b, e.0) then ValueOf(b, e.0).value else e.1);
      assert Overlaid(a, b) == o + [e'];
      assert a' + [e] == a;
      LastSymbolSnoc(o, e', sym);
      LastSymbolSnoc(a', e, sym);
    }
  }

  lemma {:induction false} NewEntriesLookup(b: Table, a: Table, sym: char)
    ensures HasSymbol(NewEntries(b, a), sym) <==> HasSymbol(b, sym) && !HasSymbol(a, sym)
    ensures ValueOf(NewEntries(b, a), sym) == if HasSymbol(a, sym) then None else ValueOf(b, sym)
  {
    if b != [] {
      var b' := b[..|b| - 1];
      var e := b[|b| - 1];
      NewEntriesLookup(b', a, sym);
      LastSymbolSnoc(b', e, sym);
      assert b' + [e] == b;
      if !HasSymbol(a, e.0) {
        assert NewEntries(b, a) == NewEntries(b', a) + [e];
        LastSymbolSnoc(NewEntries(b', a), e, sym);
      } else {
        assert NewEntries(b, a) == NewEntries(b', a) + [];
        assert NewEntries(b', a) + [] == NewEntries(b', a);
      }
    }
  }

  /** Dict union: a symbol of b stands for b's value name, any other symbol for a's. */
  lemma UnionLookup(a: Table, b: Table, sym: char)
    ensures HasSymbol(Union(a, b), sym) <==> HasSymbol(a, sym) || HasSymbol(b, sym)
    ensures ValueOf(Union(a, b), sym) == if HasSymbol(b, sym) then ValueOf(b, sym) else ValueOf(a, sym)
  {
    ConcatLookup(Overlaid(a, b), NewEntries(b, a), sym);
    OverlaidLookup(a, b, sym);
    NewEntriesLookup(b, a, sym);
  }

  /** A feature of a class: its name, its symbol table, its default symbol, whether the default is left unspecified. */
  datatype MorphoFeature = MorphoFeature(name: string, values: Table, default: string, removeIfDefault: bool)
  {
    /** The default check of `__post_init__`: when there are symbols, the default is one of them. */
    predicate Valid() {
      |values| > 0 ==> |default| == 1 && HasSymbol(values, default[0])
    }
  }

  lemma HasSymbolAt(t: Table, i: nat)
    requires i < |t|
    ensures HasSymbol(t, t[i].0)
  {
  }

  /** A symbol table as the source writes it: string keys, which `__post_init__` checks are single characters. */
  type RawTable = seq<(string, string)>

  predicate RawHasKey(raw: RawTable, key: string) {
    exists j :: 0 <= j < |raw| && raw[j].0 == key
  }

  /** The first exception the `__post_init__` loop raises from entry i on: a long key, else a default that is not a key. */
  function FeatureErrorFrom(raw: RawTable, default: string, i: nat): (e: Option<string>)
    requires i <= |raw|
    ensures e.None? <==> (forall j :: i <= j < |raw| ==> |raw[j].0| == 1) && (i < |raw| ==> RawHasKey(raw, default))
    decreases |raw| - i
  {
    if i == |raw| then None
    else if |raw[i].0| != 1 then Some("Error, key " + raw[i].0 + " is not one character long")
    else if !RawHasKey(raw, default) then Some("Error, default " + default + " not a valid value")
    else FeatureErrorFrom(raw, default, i + 1)
  }

  /** The table of a checked raw table, each key as its character. */
  function Keyed(raw: RawTable): (t: Table)
    requires forall j :: 0 <= j < |raw| ==> |raw[j].0| == 1
    ensures |t| == |raw| && forall j :: 0 <= j < |raw| ==> t[j] == (raw[j].0[0], raw[j].1)
  {
    seq(|raw|, j requires 0 <= j < |raw| => (raw[j].0[0], raw[j].1))
  }

  lemma KeyedValid(name: string, raw: RawTable, default: string, removeIfDefault: bool)
    requires forall j :: 0 <= j < |raw| ==> |raw[j].0| == 1
    requires |raw| > 0 ==> RawHasKey(raw, default)
    ensures MorphoFeature(name, Keyed(raw), default, removeIfDefault).Valid()
  {
    if |raw| > 0 {
      var j :| 0 <= j < |raw| && raw[j].0 == default;
      HasSymbolAt(Keyed(raw), j);
    }
  }

  /** `MorphoFeature(...)`: the feature, or the exception `__post_init__` raises. */
  function NewFeature(name: string, raw: RawTable, default: string, removeIfDefault: bool): (r: Result<MorphoFeature>)
    ensures r.Ok? <==> (forall j :: 0 <= j < |raw| ==> |raw[j].0| == 1) && (|raw| > 0 ==> RawHasKey(raw, default))
    ensures r.Ok? ==> (r.value.Valid() && r.value.name == name && r.value.default == default &&
      r.value.removeIfDefault == removeIfDefault && |r.value.values| == |raw| &&
      forall j :: 0 <= j < |raw| ==> r.value.values[j] == (raw[j].0[0], raw[j].1))
  {
    match FeatureErrorFrom(raw, default, 0)
    case Some(m) => Err(m)
    case None =>
      KeyedValid(name, raw, default, removeIfDefault);
      Ok(MorphoFeature(name, Keyed(raw), default, removeIfDefault))
  }

  /** A class: its category and one feature, or none, per tag position after the category. */
  datatype MorphoClass = MorphoClass(category: string, features: seq<Option<MorphoFeature>>)

  /** `MorphoClass(...)`: the class, or the exception raised for a category not one character long. */
  function NewClass(category: string, features: seq<Option<MorphoFeature>>): (r: Result<MorphoClass>)
    ensures r.Ok? <==> |category| == 1
    ensures r.Ok? ==> r.value == MorphoClass(category, features)
  {
    if |category| != 1 then Err("Category " + category + " of length not 1")
    else Ok(MorphoClass(category, features))
  }

  /** Every feature of the list passed `__post_init__`. */
  predicate FeaturesValid(fs: seq<Option<MorphoFeature>>) {
    forall k :: 0 <= k < |fs| && fs[k].Some? ==> fs[k].value.Valid()
  }

  /** A class as constructed: a one-character category and features that passed their checks. */
  predicate ClassValid(c: MorphoClass) {
    |c.category| == 1 && FeaturesValid(c.features)
  }

  function NameOf(f: Option<MorphoFeature>): set<string> {
    if f.Some? then {f.value.name} else {}
  }

  /** The names of the features of a list. */
  function Names(fs: seq<Option<MorphoFeature>>): set<string> {
    if fs == [] then {} else Names(fs[..|fs| - 1]) + NameOf(fs[|fs| - 1])
  }

  predicate DistinctNames(fs: seq<Option<MorphoFeature>>) {
    forall i, j :: 0 <= i < j < |fs| && fs[i].Some? && fs[j].Some? ==> fs[i].value.name != fs[j].value.name
  }

  lemma {:induction false} NameInNames(fs: seq<Option<MorphoFeature>>, k: nat)
    requires k < |fs| && fs[k].Some?
    ensures fs[k].value.name in Names(fs)
  {
    if k < |fs| - 1 {
      NameInNames(fs[..|fs| - 1], k);
    }
  }

  lemma {:induction false} NotInNames(fs: seq<Option<MorphoFeature>>, name: string)
    requires forall j :: 0 <= j < |fs| && fs[j].Some? ==> fs[j].value.name != name
    ensures name !in Names(fs)
  {
    if fs != [] {
      NotInNames(fs[..|fs| - 1], name);
    }
  }

  /** With distinct names, a feature's name is not among the names before it. */
  lemma NotEarlier(fs: seq<Option<MorphoFeature>>, k: nat)
    requires DistinctNames(fs) && k < |fs| && fs[k].Some?
    ensures fs[k].value.name !in Names(fs[..k])
  {
    NotInNames(fs[..k], fs[k].value.name);
  }

  // ---------------------------------------------------------------------------------------------
  // Encoding: `tag_from_features`
  // ---------------------------------------------------------------------------------------------

  /** The feature has a name present in the dict being encoded. */
  predicate Present(f: Option<MorphoFeature>, d: map<string, string>) {
    f.Some? && f.value.name in d
  }

  /** The feature is present with a value name its table does not hold: encoding raises there. */
  predicate Unencodable(f: Option<MorphoFeature>, d: map<string, string>) {
    Present(f, d) && SymbolOf(f.value.values, d[f.value.name]).None?
  }

  /** What one loop iteration appends, and the dict after its optional pop. */
  datatype Step = Step(sym: char, dict: map<string, string>)

  /** One iteration of the `tag_from_features` loop: the exception is raised before the pop. */
  function EncodeStep(f: Option<MorphoFeature>, d: map<string, string>, remove: bool): Result<Step> {
    if !Present(f, d) then Ok(Step(Any, d))
    else
      var feat := f.value;
      match SymbolOf(feat.values, d[feat.name])
      case None => Err("Value " + d[feat.name] + " not in morpho-feature " + feat.name)
      case Some(s) =>
        Ok(Step(if feat.removeIfDefault && [s] == feat.default then Any else s,
                if remove then d - {feat.name} else d))
  }

  /** The loop's state after some features: the symbols appended, the caller's dict, and the exception if one was raised. */
  datatype Encoding = Encoding(body: string, dict: map<string, string>, error: Option<string>)

  /** The state after the first n features; once an exception is raised, nothing further happens. */
  function EncodeUpTo(fs: seq<Option<MorphoFeature>>, d: map<string, string>, remove: bool, n: nat): Encoding
    requires n <= |fs|
  {
    if n == 0 then Encoding("", d, None)
    else
      var e := EncodeUpTo(fs, d, remove, n - 1);
      if e.error.Some? then e
      else match EncodeStep(fs[n - 1], e.dict, remove)
        case Err(m) => e.(error := Some(m))
        case Ok(st) => Encoding(e.body + [st.sym], st.dict, None)
  }

  /** `str.rstrip('-')`. */
  function RStrip(s: string): (r: string)
    ensures |r| <= |s| && r == s[..|r|]
    ensures r == [] || r[|r| - 1] != Any
    ensures forall i :: |r| <= i < |s| ==> s[i] == Any
  {
    if s == [] || s[|s| - 1] != Any then s else RStrip(s[..|s| - 1])
  }

  /** The result of `tag_from_features`: the category and the symbols with trailing '-' stripped, or the exception. */
  function TagFromFeatures(c: MorphoClass, d: map<string, string>, remove: bool): Result<string> {
    var e := EncodeUpTo(c.features, d, remove, |c.features|);
    if e.error.Some? then Err(e.error.value) else Ok(RStrip(c.category + e.body))
  }

  /** The caller's dict after `tag_from_features`, whether it returned or raised. */
  function DictAfterTag(c: MorphoClass, d: map<string, string>, remove: bool): map<string, string> {
    EncodeUpTo(c.features, d, remove, |c.features|).dict
  }

  /** A dict the code changes in place: the caller's feature dict. */
  class ValueDict {
    var items: map<string, string>

    constructor (items: map<string, string>)
      ensures this.items == items
    {
      this.items := items;
    }
  }

  lemma {:induction false} EncodeErrorSticks(fs: seq<Option<MorphoFeature>>, d: map<string, string>, remove: bool, n: nat, m: nat)
    requires n <= m <= |fs| && EncodeUpTo(fs, d, remove, n).error.Some?
    ensures EncodeUpTo(fs, d, remove, m) == EncodeUpTo(fs, d, remove, n)
    decreases m - n
  {
    if n < m {
      EncodeErrorSticks(fs, d, remove, n, m - 1);
    }
  }

  /**
   * `MorphoClass.tag_from_features`: appends one symbol per feature, raising on a value name the
   * feature does not know, and with `remove` pops each encoded feature from the caller's dict.
   */
  method EncodeTag(c: MorphoClass, vd: ValueDict, remove: bool) returns (r: Result<string>)
    modifies vd
    ensures r == TagFromFeatures(c, old(vd.items), remove)
    ensures vd.items == DictAfterTag(c, old(vd.items), remove)
  {
    ghost var d0 := vd.items;
    var tag := c.category;
    for k := 0 to |c.features|
      invariant EncodeUpTo(c.features, d0, remove, k).error.None?
      invariant tag == c.category + EncodeUpTo(c.features, d0, remove, k).body
      invariant vd.items == EncodeUpTo(c.features, d0, remove, k).dict
    {
      var f := c.features[k];
      if f.None? || f.value.name !in vd.items {
        tag := tag + [Any];
        continue;
      }
      var feat := f.value;
      var s := SymbolOf(feat.values, vd.items[feat.name]);
      if s.None? {
        EncodeErrorSticks(c.features, d0, remove, k + 1, |c.features|);
        return Err("Value " + vd.items[feat.name] + " not in morpho-feature " + feat.name);
      }
      var sym := s.value;
      if remove {
        vd.items := vd.items - {feat.name};
      }
      if feat.removeIfDefault && [sym] == feat.default {
        sym := Any;
      }
      tag := tag + [sym];
    }
    return Ok(RStrip(tag));
  }

  /** The character a position of the body holds, read off the dict the caller passed. */
  function ExpectedChar(f: Option<MorphoFeature>, d: map<string, string>): char
    requires !Unencodable(f, d)
  {
    if !Present(f, d) then Any
    else
      var s := SymbolOf(f.value.values, d[f.value.name]).value;
      if f.value.removeIfDefault && [s] == f.value.default then Any else s
  }

  /** With `remove`, the caller's dict loses exactly the names of the features encoded so far; otherwise it is unchanged. */
  lemma {:induction false} EncodePops(fs: seq<Option<MorphoFeature>>, d: map<string, string>, remove: bool, n: nat)
    requires n <= |fs| && EncodeUpTo(fs, d, remove, n).error.None?
    ensures EncodeUpTo(fs, d, remove, n).dict == if remove then d - Names(fs[..n]) else d
  {
    if n > 0 {
      EncodePops(fs, d, remove, n - 1);
      assert fs[..n][..n - 1] == fs[..n - 1];
      assert Names(fs[..n]) == Names(fs[..n - 1]) + NameOf(fs[n - 1]);
      if remove {
        var prev := d - Names(fs[..n - 1]);
        assert EncodeUpTo(fs, d, remove, n - 1).dict == prev;
        if fs[n - 1].Some? {
          var name := fs[n - 1].value.name;
          if name !in prev {
            assert prev == d - Names(fs[..n]);
          } else {
            assert prev - {name} == d - Names(fs[..n]);
          }
        }
      }
    }
  }

  /** One iteration, on a dict that agrees with the caller's on the feature's name, appends the expected character. */
  lemma EncodeStepChar(f: Option<MorphoFeature>, d: map<string, string>, dd: map<string, string>, remove: bool)
    requires Present(f, dd) <==> Present(f, d)
    requires Present(f, d) ==> dd[f.value.name] == d[f.value.name]
    ensures EncodeStep(f, dd, remove).Ok? <==> !Unencodable(f, d)
    ensures EncodeStep(f, dd, remove).Ok? ==> EncodeStep(f, dd, remove).value.sym == ExpectedChar(f, d)
  {
  }

  /**
   * The body after n features, described position by position from the dict as passed: encoding
   * raises exactly when some present feature holds a value name it does not know, and otherwise
   * position k holds feature k's symbol, '-' for an absent or unused feature or a removable default.
   * With `remove` the features need distinct names, or a second feature of a name finds it popped.
   */
  lemma {:induction false} EncodeChars(fs: seq<Option<MorphoFeature>>, d: map<string, string>, remove: bool, n: nat)
    requires n <= |fs| && (remove ==> DistinctNames(fs))
    ensures EncodeUpTo(fs, d, remove, n).error.None? <==> forall k :: 0 <= k < n ==> !Unencodable(fs[k], d)
    ensures EncodeUpTo(fs, d, remove, n).error.None? ==>
      |EncodeUpTo(fs, d, remove, n).body| == n &&
      forall k :: 0 <= k < n ==> EncodeUpTo(fs, d, remove, n).body[k] == ExpectedChar(fs[k], d)
  {
    if n > 0 {
      EncodeChars(fs, d, remove, n - 1);
      var e := EncodeUpTo(fs, d, remove, n - 1);
      if e.error.None? {
        EncodePops(fs, d, remove, n - 1);
        var f := fs[n - 1];
        if remove && f.Some? {
          NotEarlier(fs, n - 1);
        }
        EncodeStepChar(f, d, e.dict, remove);
        if !Unencodable(f, d) {
          var st := EncodeStep(f, e.dict, remove).value;
          assert EncodeUpTo(fs, d, remove, n) == Encoding(e.body + [st.sym], st.dict, None);
          assert e.body + [st.sym] == e.body + [ExpectedChar(f, d)];
        } else {
          assert EncodeUpTo(fs, d, remove, n).error.Some?;
        }
      } else {
        assert EncodeUpTo(fs, d, remove, n) == e;
      }
    }
  }

  // ---------------------------------------------------------------------------------------------
  // Decoding: `features_from_tag`
  // ---------------------------------------------------------------------------------------------

  /** One position of the zip: '-' and unused positions are skipped, an unknown symbol raises. */
  function DecodeStep(f: Option<MorphoFeature>, ch: char, d: map<string, string>): Result<map<string, string>> {
    if ch == Any || f.None? then Ok(d)
    else match ValueOf(f.value.values, ch)
      case None => Err("Unknown value " + [ch] + " for feature " + f.value.name)
      case Some(v) => Ok(d[f.value.name := v])
  }

  /** The symbol at a position names a feature that does not know it: decoding raises there. */
  predicate UnknownAt(fs: seq<Option<MorphoFeature>>, body: string, k: nat)
    requires k < |fs| && k < |body|
  {
    body[k] != Any && fs[k].Some? && ValueOf(fs[k].value.values, body[k]).None?
  }

  /** The feature dict after the first n positions of the body, starting from the category. */
  function DecodeUpTo(c: MorphoClass, body: string, n: nat): (r: Result<map<string, string>>)
    requires n <= |body| && n <= |c.features|
    ensures r.Ok? ==> "category" in r.value
    ensures r.Ok? && "category" !in Names(c.features) ==> r.value["category"] == c.category
  {
    if n == 0 then Ok(map["category" := c.category])
    else match DecodeUpTo(c, body, n - 1)
      case Err(m) => Err(m)
      case Ok(d) =>
        if c.features[n - 1].Some? then NameInNames(c.features, n - 1); DecodeStep(c.features[n - 1], body[n - 1], d)
        else DecodeStep(c.features[n - 1], body[n - 1], d)
  }

  /** The tag that is decoded: the replacement the bad-tag table gives, or the tag itself. */
  function Repaired(xpos: string, bad: map<string, string>): string {
    if xpos in bad then bad[xpos] else xpos
  }

  /** The result of `features_from_tag`, or the exception it raises. */
  function FeaturesFromTag(c: MorphoClass, xpos: string, bad: map<string, string>): (r: Result<map<string, string>>)
    ensures r.Ok? ==> "category" in r.value
    ensures r.Ok? && "category" !in Names(c.features) ==> r.value["category"] == c.category
  {
    var x := Repaired(xpos, bad);
    if |x| == 0 then Err("string index out of range")
    else if [x[0]] != c.category then Err("Tag does not match category")
    else if |x| - 1 > |c.features| then
      Err("Tag " + x + " is longer than num of features" + (if xpos != x then " (orig xpos " + xpos + ")" else ""))
    else DecodeUpTo(c, x[1..], |x| - 1)
  }

  lemma {:induction false} DecodeErrorSticks(c: MorphoClass, body: string, n: nat, m: nat)
    requires n <= m <= |body| && m <= |c.features| && DecodeUpTo(c, body, n).Err?
    ensures DecodeUpTo(c, body, m) == DecodeUpTo(c, body, n)
    decreases m - n
  {
    if n < m {
      DecodeErrorSticks(c, body, n, m - 1);
    }
  }

  /** Decoding the first n positions raises exactly when one of them holds a symbol its feature does not know. */
  lemma {:induction false} DecodeErrorIff(c: MorphoClass, body: string, n: nat)
    requires n <= |body| && n <= |c.features|
    ensures DecodeUpTo(c, body, n).Err? <==> exists k :: 0 <= k < n && UnknownAt(c.features, body, k)
  {
    if n > 0 {
      DecodeErrorIff(c, body, n - 1);
      if DecodeUpTo(c, body, n - 1).Ok? && UnknownAt(c.features, body, n - 1) {
        assert DecodeUpTo(c, body, n).Err?;
      }
    }
  }

  /** The zip loop of `features_from_tag` over a body no longer than the feature list. */
  method DecodeBody(c: MorphoClass, tag: string) returns (r: Result<map<string, string>>)
    requires |tag| <= |c.features|
    ensures r == DecodeUpTo(c, tag, |tag|)
  {
    var fd := map["category" := c.category];
    for k := 0 to |tag|
      invariant DecodeUpTo(c, tag, k) == Ok(fd)
    {
      var ch := tag[k];
      var feat := c.features[k];
      if ch == Any || feat.None? {
        continue;
      }
      var v := ValueOf(feat.value.values, ch);
      if v.None? {
        DecodeErrorSticks(c, tag, k + 1, |tag|);
        return Err("Unknown value " + [ch] + " for feature " + feat.value.name);
      }
      fd := fd[feat.value.name := v.value];
    }
    return Ok(fd);
  }

  /**
   * `MorphoClass.features_from_tag`: substitutes a known bad tag, checks the category and the
   * length, then zips the features with the symbols into a dict that starts with the category.
   */
  method DecodeTag(c: MorphoClass, xpos: string, bad: map<string, string>) returns (r: Result<map<string, string>>)
    ensures r == FeaturesFromTag(c, xpos, bad)
  {
    var x := xpos;
    if |bad| > 0 && x in bad {
      x := bad[x];
    }
    if |x| == 0 {
      return Err("string index out of range");
    }
    if [x[0]] != c.category {
      return Err("Tag does not match category");
    }
    var tag := x[1..];
    if |tag| > |c.features| {
      return Err("Tag " + x + " is longer than num of features" + (if xpos != x then " (orig xpos " + xpos + ")" else ""));
    }
    r := DecodeBody(c, tag);
  }

  // ---------------------------------------------------------------------------------------------
  // Shape of a tag and the two round trips
  // ---------------------------------------------------------------------------------------------

  /**
   * `tag_from_features` raises exactly when a present feature holds a value name it does not know.
   * Otherwise the tag starts with the category, character k + 1 is feature k's symbol ('-' for an
   * absent or unused feature or a removable default), and it is at most one longer than the feature list.
   */
  lemma TagShape(c: MorphoClass, d: map<string, string>, remove: bool)
    requires ClassValid(c) && c.category != [Any] && (remove ==> DistinctNames(c.features))
    ensures TagFromFeatures(c, d, remove).Ok? <==> forall k :: 0 <= k < |c.features| ==> !Unencodable(c.features[k], d)
    ensures TagFromFeatures(c, d, remove).Ok? ==>
      var t := TagFromFeatures(c, d, remove).value;
      1 <= |t| <= 1 + |c.features| && t[..1] == c.category &&
      forall k :: 0 <= k < |t| - 1 ==> t[k + 1] == ExpectedChar(c.features[k], d)
  {
    EncodeChars(c.features, d, remove, |c.features|);
    var e := EncodeUpTo(c.features, d, remove, |c.features|);
    if e.error.None? {
      RStripHead(c.category, e.body);
    }
  }

  /** Stripping leaves a head that does not end in '-' alone. */
  lemma {:induction false} RStripHead(a: string, b: string)
    requires |a| >= 1 && a[|a| - 1] != Any
    ensures RStrip(a + b) == a + RStrip(b)
    decreases |b|
  {
    if b != [] && b[|b| - 1] == Any {
      assert (a + b)[..|a + b| - 1] == a + b[..|b| - 1];
      RStripHead(a, b[..|b| - 1]);
    }
  }

  /** Stripping a word that does not end in '-' followed by dashes gives the word. */
  lemma {:induction false} RStripDashes(b: string, e: string)
    requires b == [] || b[|b| - 1] != Any
    requires forall i :: 0 <= i < |e| ==> e[i] == Any
    ensures RStrip(b + e) == b
    decreases |e|
  {
    if e != [] {
      assert (b + e)[..|b + e| - 1] == b + e[..|e| - 1];
      RStripDashes(b, e[..|e| - 1]);
    } else {
      assert b + e == b;
    }
  }

  /** Decoding the first n positions reads only those positions. */
  lemma {:induction false} DecodePrefix(c: MorphoClass, s: string, t: string, n: nat)
    requires n <= |s| && n <= |t| && n <= |c.features| && s[..n] == t[..n]
    ensures DecodeUpTo(c, s, n) == DecodeUpTo(c, t, n)
  {
    if n > 0 {
      assert s[..n - 1] == s[..n][..n - 1] && t[..n - 1] == t[..n][..n - 1];
      assert s[n - 1] == s[..n][n - 1] && t[n - 1] == t[..n][n - 1];
      DecodePrefix(c, s, t, n - 1);
    }
  }

  /** Positions holding '-' change nothing. */
  lemma {:induction false} DecodeDashes(c: MorphoClass, s: string, m: nat, n: nat)
    requires m <= n <= |s| && n <= |c.features|
    requires forall i :: m <= i < |s| ==> s[i] == Any
    ensures DecodeUpTo(c, s, n) == DecodeUpTo(c, s, m)
  {
    if m < n {
      DecodeDashes(c, s, m, n - 1);
    }
  }

  /** The symbol tables are dicts with distinct value names and no '-' symbol. */
  predicate FeatureCodec(f: MorphoFeature) {
    f.Valid() && DistinctSymbols(f.values) && DistinctValues(f.values) && !HasSymbol(f.values, Any)
  }

  /**
   * The class shape under which tags and dicts correspond: a category other than '-', codec features,
   * distinct feature names, none of them "category". Every class of the Romanian dictionary has it.
   */
  predicate Codec(c: MorphoClass) {
    |c.category| == 1 && c.category[0] != Any &&
    (forall k :: 0 <= k < |c.features| && c.features[k].Some? ==> FeatureCodec(c.features[k].value)) &&
    DistinctNames(c.features) && "category" !in Names(c.features)
  }

  /** Every present feature holds a value name of its table, and no removable feature holds its default. */
  predicate Encodable(c: MorphoClass, d: map<string, string>) {
    forall k :: 0 <= k < |c.features| && Present(c.features[k], d) ==>
      var f := c.features[k].value;
      SymbolOf(f.values, d[f.name]).Some? && !(f.removeIfDefault && [SymbolOf(f.values, d[f.name]).value] == f.default)
  }

  /** The entries of d whose keys are among names. */
  function Restrict(d: map<string, string>, names: set<string>): (r: map<string, string>)
    ensures forall k :: k in r <==> k in d && k in names
    ensures forall k :: k in r ==> r[k] == d[k]
  {
    map k | k in d && k in names :: d[k]
  }

  /** Reading an absent or unused feature's '-' leaves the decoded entries as they were. */
  lemma DecodeAbsent(c: MorphoClass, d: map<string, string>, body: string, n: nat)
    requires 0 < n <= |body| && n <= |c.features| && !Present(c.features[n - 1], d) && body[n - 1] == Any
    requires DecodeUpTo(c, body, n - 1) == Ok(Restrict(d, Names(c.features[..n - 1]))["category" := c.category])
    ensures DecodeUpTo(c, body, n) == Ok(Restrict(d, Names(c.features[..n]))["category" := c.category])
  {
    var fs := c.features;
    assert fs[..n][..n - 1] == fs[..n - 1];
    assert Names(fs[..n]) == Names(fs[..n - 1]) + NameOf(fs[n - 1]);
    assert Restrict(d, Names(fs[..n])) == Restrict(d, Names(fs[..n - 1]));
  }

  /** Reading a present feature's symbol adds the feature's entry of d. */
  lemma DecodePresent(c: MorphoClass, d: map<string, string>, body: string, n: nat)
    requires Codec(c) && 0 < n <= |body| && n <= |c.features| && Present(c.features[n - 1], d)
    requires var f := c.features[n - 1].value;
      SymbolOf(f.values, d[f.name]).Some? && body[n - 1] == SymbolOf(f.values, d[f.name]).value
    requires DecodeUpTo(c, body, n - 1) == Ok(Restrict(d, Names(c.features[..n - 1]))["category" := c.category])
    ensures DecodeUpTo(c, body, n) == Ok(Restrict(d, Names(c.features[..n]))["category" := c.category])
  {
    var fs := c.features;
    var feat := fs[n - 1].value;
    assert fs[..n][..n - 1] == fs[..n - 1];
    assert Names(fs[..n]) == Names(fs[..n - 1]) + {feat.name};
    var prev := Restrict(d, Names(fs[..n - 1]))["category" := c.category];
    NameInNames(fs, n - 1);
    var i := LastValue(feat.values, d[feat.name]);
    var s := feat.values[i].0;
    assert FeatureCodec(feat);
    assert s != Any;
    assert body[n - 1] == s;
    SymbolThenValue(feat.values, d[feat.name]);
    assert DecodeStep(fs[n - 1], body[n - 1], prev) == Ok(prev[feat.name := d[feat.name]]);
    assert prev[feat.name := d[feat.name]] == Restrict(d, Names(fs[..n]))["category" := c.category];
  }

  /** Decoding a body written from d gives back d's entries for the features read so far. */
  lemma {:induction false} DecodeEncoded(c: MorphoClass, d: map<string, string>, body: string, n: nat)
    requires Codec(c) && Encodable(c, d) && n <= |body| && n <= |c.features|
    requires forall k :: 0 <= k < n ==> body[k] == ExpectedChar(c.features[k], d)
    ensures DecodeUpTo(c, body, n) == Ok(Restrict(d, Names(c.features[..n]))["category" := c.category])
  {
    if n > 0 {
      DecodeEncoded(c, d, body, n - 1);
      if Present(c.features[n - 1], d) {
        DecodePresent(c, d, body, n);
      } else {
        DecodeAbsent(c, d, body, n);
      }
    }
  }

  /**
   * Dict to tag to dict: for a codec class and a dict it can encode, the tag decodes to the
   * category together with the dict's entries for the class's feature names, unless the bad-tag
   * table lists the tag.
   */
  lemma FeaturesRoundTrip(c: MorphoClass, d: map<string, string>, remove: bool, bad: map<string, string>)
    requires Codec(c) && Encodable(c, d)
    ensures TagFromFeatures(c, d, remove).Ok?
    ensures TagFromFeatures(c, d, remove).value !in bad ==>
      FeaturesFromTag(c, TagFromFeatures(c, d, remove).value, bad) == Ok(Restrict(d, Names(c.features))["category" := c.category])
  {
    var fs := c.features;
    EncodeChars(fs, d, remove, |fs|);
    var body := EncodeUpTo(fs, d, remove, |fs|).body;
    RStripHead(c.category, body);
    assert TagFromFeatures(c, d, remove) == Ok(c.category + RStrip(body));
    if c.category + RStrip(body) !in bad {
      DecodeWritten(c, d, body, bad);
    }
  }

  /** The tag written from a body of expected characters decodes to d's entries for the class's features. */
  lemma DecodeWritten(c: MorphoClass, d: map<string, string>, body: string, bad: map<string, string>)
    requires Codec(c) && Encodable(c, d) && |body| == |c.features|
    requires forall k :: 0 <= k < |body| ==> body[k] == ExpectedChar(c.features[k], d)
    requires c.category + RStrip(body) !in bad
    ensures FeaturesFromTag(c, c.category + RStrip(body), bad) == Ok(Restrict(d, Names(c.features))["category" := c.category])
  {
    var fs := c.features;
    var b := RStrip(body);
    var x := c.category + b;
    assert x[1..] == b && [x[0]] == c.category && |x| - 1 == |b| <= |fs|;
    UnlistedTag(c, x, bad);
    DecodeDashes(c, body, |b|, |fs|);
    DecodePrefix(c, b, body, |b|);
    DecodeEncoded(c, d, body, |fs|);
    assert fs[..|fs|] == fs;
  }


  /** A symbol allowed at a position of a tag the class writes: '-', or for a feature one of its symbols other than a removable default. */
  predicate CanonicalAt(f: Option<MorphoFeature>, ch: char) {
    ch == Any || (f.Some? && HasSymbol(f.value.values, ch) && !(f.value.removeIfDefault && [ch] == f.value.default))
  }

  /** A tag as `tag_from_features` writes it for the class: the category, allowed symbols, no trailing '-'. */
  predicate Canonical(c: MorphoClass, x: string) {
    1 <= |x| <= 1 + |c.features| && [x[0]] == c.category && (|x| == 1 || x[|x| - 1] != Any) &&
    forall k :: 0 <= k < |x| - 1 ==> CanonicalAt(c.features[k], x[k + 1])
  }

  /** After n positions of an allowed body, the dict holds exactly the features read with a symbol, with the values they stand for. */
  lemma {:induction false} DecodedEntries(c: MorphoClass, body: string, n: nat)
    requires Codec(c) && n <= |body| <= |c.features|
    requires forall k :: 0 <= k < |body| ==> CanonicalAt(c.features[k], body[k])
    ensures DecodeUpTo(c, body, n).Ok?
    ensures forall k :: 0 <= k < n && c.features[k].Some? && body[k] != Any ==>
      c.features[k].value.name in DecodeUpTo(c, body, n).value &&
      Some(DecodeUpTo(c, body, n).value[c.features[k].value.name]) == ValueOf(c.features[k].value.values, body[k])
    ensures forall k :: 0 <= k < |c.features| && c.features[k].Some? && (k >= n || body[k] == Any) ==>
      c.features[k].value.name !in DecodeUpTo(c, body, n).value
  {
    var fs := c.features;
    if n == 0 {
      forall k | 0 <= k < |fs| && fs[k].Some?
        ensures fs[k].value.name != "category"
      {
        NameInNames(fs, k);
      }
    } else {
      DecodedEntries(c, body, n - 1);
      var prev := DecodeUpTo(c, body, n - 1).value;
      var f := fs[n - 1];
      if body[n - 1] == Any || f.None? {
        assert DecodeUpTo(c, body, n) == Ok(prev);
      } else {
        var v := ValueOf(f.value.values, body[n - 1]);
        assert v.Some?;
        assert DecodeUpTo(c, body, n) == Ok(prev[f.value.name := v.value]);
      }
    }
  }

  /** The decoded dict makes every feature write back the symbol it was read from, and '-' past the body. */
  lemma ExpectedFromDecoded(c: MorphoClass, body: string, dd: map<string, string>, k: nat)
    requires Codec(c) && |body| <= |c.features| && k < |c.features|
    requires forall j :: 0 <= j < |body| ==> CanonicalAt(c.features[j], body[j])
    requires DecodeUpTo(c, body, |body|) == Ok(dd)
    ensures !Unencodable(c.features[k], dd)
    ensures ExpectedChar(c.features[k], dd) == if k < |body| then body[k] else Any
  {
    DecodedEntries(c, body, |body|);
    var f := c.features[k];
    if k < |body| && f.Some? && body[k] != Any {
      var feat := f.value;
      assert FeatureCodec(feat);
      ValueThenSymbol(feat.values, body[k]);
      assert SymbolOf(feat.values, dd[feat.name]) == Some(body[k]);
    }
  }

  /**
   * Tag to dict to tag: a tag the class writes decodes, unless the bad-tag table lists it, to a dict
   * that encodes back to the same tag, with or without popping.
   */
  lemma TagRoundTrip(c: MorphoClass, x: string, remove: bool, bad: map<string, string>)
    requires Codec(c) && Canonical(c, x) && x !in bad
    ensures FeaturesFromTag(c, x, bad).Ok?
    ensures TagFromFeatures(c, FeaturesFromTag(c, x, bad).value, remove) == Ok(x)
  {
    var body := x[1..];
    DecodeCanonical(c, x, bad);
    EncodeDecoded(c, body, DecodeUpTo(c, body, |body|).value, remove);
    assert x == [x[0]] + body;
  }

  /** A tag the class writes, not listed as bad, is decoded by its body alone, without an error. */
  lemma DecodeCanonical(c: MorphoClass, x: string, bad: map<string, string>)
    requires Codec(c) && Canonical(c, x) && x !in bad
    ensures forall k :: 0 <= k < |x| - 1 ==> CanonicalAt(c.features[k], x[1..][k])
    ensures DecodeUpTo(c, x[1..], |x| - 1).Ok?
    ensures FeaturesFromTag(c, x, bad) == DecodeUpTo(c, x[1..], |x| - 1)
  {
    var body := x[1..];
    assert forall k :: 0 <= k < |body| ==> CanonicalAt(c.features[k], body[k]);
    DecodedEntries(c, body, |body|);
    UnlistedTag(c, x, bad);
  }

  /** A tag the bad-tag table does not list, with the class's category and not too long, is decoded by its body. */
  lemma UnlistedTag(c: MorphoClass, x: string, bad: map<string, string>)
    requires x !in bad && |x| >= 1 && [x[0]] == c.category && |x| - 1 <= |c.features|
    ensures FeaturesFromTag(c, x, bad) == DecodeUpTo(c, x[1..], |x| - 1)
  {
    assert Repaired(x, bad) == x;
  }

  /** The dict decoded from an allowed body without trailing '-' encodes back to the category and that body. */
  lemma EncodeDecoded(c: MorphoClass, body: string, dd: map<string, string>, remove: bool)
    requires Codec(c) && |body| <= |c.features| && (body == [] || body[|body| - 1] != Any)
    requires forall j :: 0 <= j < |body| ==> CanonicalAt(c.features[j], body[j])
    requires DecodeUpTo(c, body, |body|) == Ok(dd)
    ensures TagFromFeatures(c, dd, remove) == Ok(c.category + body)
  {
    var fs := c.features;
    forall k | 0 <= k < |fs|
      ensures !Unencodable(fs[k], dd) && ExpectedChar(fs[k], dd) == if k < |body| then body[k] else Any
    {
      ExpectedFromDecoded(c, body, dd, k);
    }
    EncodeChars(fs, dd, remove, |fs|);
    var e := EncodeUpTo(fs, dd, remove, |fs|).body;
    assert e == body + e[|body|..];
    RStripDashes(body, e[|body|..]);
    RStripHead(c.category, e);
  }

  // ---------------------------------------------------------------------------------------------
  // The dictionary of classes
  // ---------------------------------------------------------------------------------------------

  /** `MorphoDictionary`: the classes by category. */
  type MorphoDictionary = map<string, MorphoClass>

  /** `MorphoDictionary(ml)`: each class under its category; of two classes with one category the later stays. */
  function NewDictionary(ml: seq<MorphoClass>): (md: MorphoDictionary)
    ensures forall k :: k in md ==> md[k].category == k
    ensures md.Keys == set i | 0 <= i < |ml| :: ml[i].category
  {
    if ml == [] then map[]
    else
      var init := ml[..|ml| - 1];
      var prev := NewDictionary(init);
      assert (set i | 0 <= i < |ml| :: ml[i].category) == (set i | 0 <= i < |init| :: init[i].category) + {ml[|ml| - 1].category};
      prev[ml[|ml| - 1].category := ml[|ml| - 1]]
  }

  /** A class no later class shares a category with is the one filed under its category. */
  lemma {:induction false} LaterClassWins(ml: seq<MorphoClass>, i: nat)
    requires i < |ml| && forall j :: i < j < |ml| ==> ml[j].category != ml[i].category
    ensures ml[i].category in NewDictionary(ml) && NewDictionary(ml)[ml[i].category] == ml[i]
  {
    if i < |ml| - 1 {
      LaterClassWins(ml[..|ml| - 1], i);
    }
  }

  /**
   * `MorphoDictionary.features_from_tag`: the class whose category is the tag's first character
   * decodes it; none for an unknown category. The first character of an empty tag raises. The
   * dictionary's keys are its classes' categories, so the scan of its classes is the lookup by key.
   */
  function DictFeaturesFromTag(md: MorphoDictionary, xpos: string, bad: map<string, string>): (r: Result<Option<map<string, string>>>)
    ensures |xpos| == 0 ==> r.Err?
    ensures |xpos| > 0 && [xpos[0]] !in md ==> r == Ok(None)
    ensures |xpos| > 0 && [xpos[0]] in md ==>
      match FeaturesFromTag(md[[xpos[0]]], xpos, bad)
      case Ok(fd) => r == Ok(Some(fd))
      case Err(m) => r == Err(m)
  {
    if |xpos| == 0 then Err("string index out of range")
    else if [xpos[0]] !in md then Ok(None)
    else match FeaturesFromTag(md[[xpos[0]]], xpos, bad)
      case Err(m) => Err(m)
      case Ok(fd) => Ok(Some(fd))
  }

  /** `MorphoDictionary.tag_from_features`: none without a known "category" entry, else the class's encoding. */
  function DictTagFromFeatures(md: MorphoDictionary, d: map<string, string>, remove: bool): (r: Result<Option<string>>)
    ensures r == Ok(None) <==> "category" !in d || d["category"] !in md
    ensures "category" in d && d["category"] in md ==>
      match TagFromFeatures(md[d["category"]], d, remove)
      case Ok(t) => r == Ok(Some(t))
      case Err(m) => r == Err(m)
  {
    if "category" !in d || d["category"] !in md then Ok(None)
    else match TagFromFeatures(md[d["category"]], d, remove)
      case Err(m) => Err(m)
      case Ok(t) => Ok(Some(t))
  }

  /** The dispatching `tag_from_features` on the caller's dict, which the class's encoder may pop. */
  method DictEncodeTag(md: MorphoDictionary, vd: ValueDict, remove: bool) returns (r: Result<Option<string>>)
    modifies vd
    ensures r == DictTagFromFeatures(md, old(vd.items), remove)
    ensures "category" in old(vd.items) && old(vd.items)["category"] in md ==>
      vd.items == DictAfterTag(md[old(vd.items)["category"]], old(vd.items), remove)
    ensures !("category" in old(vd.items) && old(vd.items)["category"] in md) ==> vd.items == old(vd.items)
  {
    if "category" !in vd.items || vd.items["category"] !in md {
      return Ok(None);
    }
    var t := EncodeTag(md[vd.items["category"]], vd, remove);
    match t {
      case Err(m) => r := Err(m);
      case Ok(tag) => r := Ok(Some(tag));
    }
  }

  /** The classes of a dictionary are codec classes filed under their categories. */
  predicate DictCodec(md: MorphoDictionary) {
    forall k :: k in md ==> md[k].category == k && Codec(md[k])
  }

  /**
   * Through the dictionary: a dict naming a category of the dictionary, which the class can encode,
   * becomes a tag that decodes back to the dict's entries for the class's features and its category,
   * unless the bad-tag table lists the tag.
   */
  lemma DictionaryRoundTrip(md: MorphoDictionary, d: map<string, string>, bad: map<string, string>)
    requires DictCodec(md) && "category" in d && d["category"] in md && Encodable(md[d["category"]], d)
    ensures DictTagFromFeatures(md, d, false).Ok? && DictTagFromFeatures(md, d, false).value.Some?
    ensures var t := DictTagFromFeatures(md, d, false).value.value;
      t !in bad ==>
      DictFeaturesFromTag(md, t, bad) == Ok(Some(Restrict(d, Names(md[d["category"]].features))["category" := d["category"]]))
  {
    var c := md[d["category"]];
    FeaturesRoundTrip(c, d, false, bad);
    TagShape(c, d, false);
    var t := TagFromFeatures(c, d, false).value;
    assert [t[0]] == t[..1] == c.category;
  }
}
