/**
 * The synthetic form generator (server/ro_form_gen/synthetic_form_generator.py): the verb grammar
 * expands a rule into a sequence of lemmas and features, the morphological dictionary encodes each
 * position as a tag, and the lexicon looks up the forms of the lemma with that tag, narrowed by the
 * rule's filter.
 */
module SyntheticForms {
  import opened Wrappers
  import MsdFormat
  import VerbGrammar
  import Lexicons

  /** `LexiconFilterFn`: an entry and the requested tag decide whether the entry's form is kept. */
  type Filter = (Lexicons.Entry, string) -> bool

  // ---------------------------------------------------------------------------------------------
  // The filters

  /** `filterNegPrefix`: keeps the entries that are not negated forms. */
  function FilterNegPrefix(e: Lexicons.Entry, xpos: string): bool {
    !e.isNeg
  }

  /** An entry of the auxiliary `avea`. */
  predicate AveaAux(e: Lexicons.Entry) {
    Lexicons.StartsWith(e.xpos, "Va") && e.lem == "avea"
  }

  /** `filterForConditional`: no negated forms, and of `avea` neither "a" nor "au", nor "am" for a first person singular. */
  function FilterForConditional(e: Lexicons.Entry, origXpos: string): bool {
    if !FilterNegPrefix(e, origXpos) then false
    else if AveaAux(e) && (e.form in {"a", "au"} || (e.form == "am" && Lexicons.StartsWith(origXpos, "Va--1s"))) then false
    else true
  }

  /** `filterForPastPerfect`: no negated forms, and of `avea` neither "a\U{0219}" nor "ar". */
  function FilterForPastPerfect(e: Lexicons.Entry, origXpos: string): bool {
    if !FilterNegPrefix(e, origXpos) then false
    else if AveaAux(e) && e.form in {"a\U{0219}", "ar"} then false
    else true
  }

  /**
   * Both auxiliary filters keep only what `filterNegPrefix` keeps, and they behave exactly like it on
   * every entry that is not the auxiliary `avea`.
   */
  lemma FiltersNarrowNegPrefix(e: Lexicons.Entry, x: string)
    ensures FilterForConditional(e, x) ==> FilterNegPrefix(e, x)
    ensures FilterForPastPerfect(e, x) ==> FilterNegPrefix(e, x)
    ensures !AveaAux(e) ==> FilterForConditional(e, x) == FilterNegPrefix(e, x) == FilterForPastPerfect(e, x)
  {
  }

  /**
   * On a non-negated `avea` auxiliary the two filters split the forms as the conjugations need:
   * "a\U{0219}" and "ar" belong to the conditional, "a" and "au" to the past perfect; "ai" and "a\U{021B}i" to both;
   * "am" to the past perfect always and to the conditional except in the first person singular.
   */
  lemma AuxFormsSplit(e: Lexicons.Entry, x: string)
    requires AveaAux(e) && !e.isNeg
    ensures e.form in {"a\U{0219}", "ar"} ==> FilterForConditional(e, x) && !FilterForPastPerfect(e, x)
    ensures e.form in {"a", "au"} ==> !FilterForConditional(e, x) && FilterForPastPerfect(e, x)
    ensures e.form in {"ai", "a\U{021B}i"} ==> FilterForConditional(e, x) && FilterForPastPerfect(e, x)
    ensures e.form == "am" ==> FilterForPastPerfect(e, x) && (FilterForConditional(e, x) <==> !Lexicons.StartsWith(x, "Va--1s"))
  {
    assert "a\U{0219}" != "a" && "a\U{0219}" != "au" && "ar" != "a" && "ar" != "au";
    assert "ai" != "a\U{0219}" && "a\U{021B}i" != "a\U{0219}" && "a\U{021B}i" != "au" && "am" != "a\U{0219}";
  }

  // ---------------------------------------------------------------------------------------------
  // The choice of filter

  const Default: string := "default"

  /** The key whose filter a rule uses: the rule's own, else the default one, else none. */
  function FilterKey(filters: map<string, Filter>, rule: string): (k: Option<string>)
    ensures k.Some? ==> k.value in filters
  {
    if rule in filters then Some(rule) else if Default in filters then Some(Default) else None
  }

  /** The filter a rule uses, if any. */
  function Chosen(filters: map<string, Filter>, rule: string): Option<Filter> {
    match FilterKey(filters, rule)
    case None => None
    case Some(k) => Some(filters[k])
  }

  /** `roFilterFnDict`. */
  const RoFilters: map<string, Filter> := map[
    Default := FilterNegPrefix,
    "Conditional" := FilterForConditional,
    "ConditionalPerfect" := FilterForConditional,
    "PastPerfect" := FilterForPastPerfect]

  /**
   * With the Romanian filters, the two conditionals use the conditional filter, the past perfect
   * its own, and every other rule, known or not, the negation filter.
   */
  lemma RoFilterChoice(rule: string)
    ensures Chosen(RoFilters, rule).Some?
    ensures rule in {"Conditional", "ConditionalPerfect"} ==>
              forall e, x :: Chosen(RoFilters, rule).value(e, x) == FilterForConditional(e, x)
    ensures rule == "PastPerfect" ==>
              forall e, x :: Chosen(RoFilters, rule).value(e, x) == FilterForPastPerfect(e, x)
    ensures rule !in {"Conditional", "ConditionalPerfect", "PastPerfect"} ==>
              forall e, x :: Chosen(RoFilters, rule).value(e, x) == FilterNegPrefix(e, x)
  {
    assert RoFilters.Keys == {Default, "Conditional", "ConditionalPerfect", "PastPerfect"};
    if rule !in {"Conditional", "ConditionalPerfect", "PastPerfect"} && rule in RoFilters {
      assert rule == Default;
    }
  }

  // ---------------------------------------------------------------------------------------------
  // Looking up one position

  /** What `lemma_xpos_to_form` answers for a tag: none for an unknown lemma, else the selected forms. */
  ghost function Found(lex: Lexicons.Lexicon, lem: string, tag: string, filter: Option<Filter>): (r: Option<seq<string>>)
    reads lex
    requires lex.Valid()
    ensures r.None? <==> lem !in lex.lemmaDict
  {
    if lem !in lex.lemmaDict then None
    else
      Lexicons.TagsInRange(lex.entries, lem, lex.lemmaDict[lem]);
      Some(Lexicons.FormsOf(lex.entries, Lexicons.Selection(lex.entries, lex.lemmaDict[lem], tag, filter)))
  }

  /** Every form found is the form of an entry of the lemma whose tag matches and that the filter keeps. */
  lemma FoundSound(lex: Lexicons.Lexicon, lem: string, tag: string, filter: Option<Filter>, k: nat)
    requires lex.Valid() && Found(lex, lem, tag, filter).Some? && k < |Found(lex, lem, tag, filter).value|
    ensures exists i :: 0 <= i < |lex.entries| && lex.entries[i].form == Found(lex, lem, tag, filter).value[k] &&
              lex.entries[i].lem == lem && Lexicons.TagScore(tag, lex.entries[i].xpos) > 0 &&
              (filter.Some? ==> filter.value(lex.entries[i], tag))
  {
    var ix := lex.lemmaDict[lem];
    Lexicons.TagsInRange(lex.entries, lem, ix);
    var sel := Lexicons.Selection(lex.entries, ix, tag, filter);
    var i := sel[k];
    Lexicons.SelectionSound(lex.entries, lem, ix, tag, filter, i);
    assert lex.entries[i].form == Found(lex, lem, tag, filter).value[k];
  }

  /** Every entry of a known lemma whose tag matches and that the filter keeps gives one of the forms found. */
  lemma FoundComplete(lex: Lexicons.Lexicon, lem: string, tag: string, filter: Option<Filter>, i: nat)
    requires lex.Valid() && i < |lex.entries| && lex.entries[i].lem == lem
    requires Lexicons.TagScore(tag, lex.entries[i].xpos) > 0 && (filter.Some? ==> filter.value(lex.entries[i], tag))
    ensures Found(lex, lem, tag, filter).Some? && lex.entries[i].form in Found(lex, lem, tag, filter).value
  {
    Lexicons.LemmaKeys(lex.entries, lex.lemmaDict, lem);
    var ix := lex.lemmaDict[lem];
    Lexicons.TagsInRange(lex.entries, lem, ix);
    Lexicons.SelectionComplete(lex.entries, lem, ix, tag, filter, i);
    var sel := Lexicons.Selection(lex.entries, ix, tag, filter);
    var k :| 0 <= k < |sel| && sel[k] == i;
    assert Found(lex, lem, tag, filter).value[k] == lex.entries[i].form;
  }

  /** The error a known lemma raises when no tag could be encoded: the scoring cannot iterate over none. */
  const NoneTag: string := "TypeError: 'NoneType' object is not iterable"

  /**
   * The lookup of a lemma with an encoded tag: an encoding error is raised; a missing tag raises for a
   * known lemma and finds nothing for an unknown one; otherwise the lexicon's answer.
   */
  ghost function TagLookup(lex: Lexicons.Lexicon, lem: string, tag: Result<Option<string>>, filter: Option<Filter>): Result<Option<seq<string>>>
    reads lex
    requires lex.Valid()
  {
    match tag
    case Err(m) => Err(m)
    case Ok(None) => if lem in lex.lemmaDict then Err(NoneTag) else Ok(None)
    case Ok(Some(t)) => Ok(Found(lex, lem, t, filter))
  }

  /** `lex.lemma_xpos_to_form(lemma, xpos, filterFn)` once the tag has been encoded. */
  method LookupTagged(lex: Lexicons.Lexicon, lem: string, tag: Result<Option<string>>, filter: Option<Filter>)
    returns (r: Result<Option<seq<string>>>)
    requires lex.Valid()
    ensures r == TagLookup(lex, lem, tag, filter)
  {
    match tag
    case Err(m) =>
      r := Err(m);
    case Ok(None) =>
      if lem in lex.lemmaDict {
        r := Err(NoneTag);
      } else {
        r := Ok(None);
      }
    case Ok(Some(t)) =>
      var forms := LookupFound(lex, lem, t, filter);
      r := Ok(forms);
  }

  /** `lex.lemma_xpos_to_form(lemma, xpos, filterFn)` with an encoded tag answers what `Found` says. */
  method LookupFound(lex: Lexicons.Lexicon, lem: string, tag: string, filter: Option<Filter>) returns (forms: Option<seq<string>>)
    requires lex.Valid()
    ensures forms == Found(lex, lem, tag, filter)
  {
    forms := lex.LemmaXposToForm(lem, tag, filter);
    Lexicons.LemmaKeys(lex.entries, lex.lemmaDict, lem);
  }

  // ---------------------------------------------------------------------------------------------
  // The forms of a rule

  /** The features without the placeholders of unresolved agreement, which the encoder must not see. */
  function Unagreed(d: map<string, string>): (r: map<string, string>)
    ensures forall k :: k in r <==> k in d && d[k] != VerbGrammar.AgreeValue
    ensures forall k :: k in r ==> r[k] == d[k]
  {
    map k | k in d && d[k] != VerbGrammar.AgreeValue :: d[k]
  }

  const LemmaKeyError: string := "KeyError: 'lemma'"

  /** `tag_from_features` on a position's features, placeholders dropped, nothing removed. */
  function TagOf(md: MsdFormat.MorphoDictionary, token: map<string, string>): Result<Option<string>> {
    MsdFormat.DictTagFromFeatures(md, Unagreed(token), false)
  }

  /** One position: its lemma (a key error without one) looked up with the tag its other features encode. */
  ghost function PositionForms(lex: Lexicons.Lexicon, md: MsdFormat.MorphoDictionary, filter: Option<Filter>,
                               token: map<string, string>): Result<Option<seq<string>>>
    reads lex
    requires lex.Valid()
  {
    if "lemma" !in token then Err(LemmaKeyError)
    else TagLookup(lex, token["lemma"], TagOf(md, token), filter)
  }

  /** Outcomes taken in turn: the first error ends the loop with its message, else every value in order. */
  function FirstError<T>(rs: seq<Result<T>>): (r: Result<seq<T>>)
    ensures r.Ok? ==> (|r.value| == |rs| && forall i :: 0 <= i < |rs| ==> rs[i] == Ok(r.value[i]))
    ensures r.Err? ==> (exists i :: 0 <= i < |rs| && rs[i] == Err(r.message) && forall j :: 0 <= j < i ==> rs[j].Ok?)
  {
    if rs == [] then Ok([])
    else
      var n := |rs| - 1;
      assert forall j :: 0 <= j < n ==> rs[..n][j] == rs[j];
      match FirstError(rs[..n])
      case Err(m) => Err(m)
      case Ok(vs) =>
        match rs[n]
        case Err(m) => Err(m)
        case Ok(v) => Ok(vs + [v])
  }

  /** One more outcome after the earlier ones. */
  lemma FirstErrorStep<T>(rs: seq<Result<T>>, i: nat)
    requires i < |rs|
    ensures FirstError(rs[..i + 1]) ==
              match FirstError(rs[..i])
              case Err(m) => Err(m)
              case Ok(vs) =>
                match rs[i]
                case Err(m) => Err(m)
                case Ok(v) => Ok(vs + [v])
  {
    assert rs[..i + 1][..i] == rs[..i];
  }

  /** Once an outcome is an error, the later ones do not matter. */
  lemma {:induction false} FirstErrorSticks<T>(rs: seq<Result<T>>, n: nat)
    requires n <= |rs| && FirstError(rs[..n]).Err?
    ensures FirstError(rs) == FirstError(rs[..n])
  {
    if n < |rs| {
      var init := rs[..|rs| - 1];
      assert init[..n] == rs[..n];
      FirstErrorSticks(init, n);
    } else {
      assert rs[..n] == rs;
    }
  }

  /** Every position looked up on its own. */
  ghost function Lookups(lex: Lexicons.Lexicon, md: MsdFormat.MorphoDictionary, filter: Option<Filter>,
                         tokens: seq<map<string, string>>): (rs: seq<Result<Option<seq<string>>>>)
    reads lex
    requires lex.Valid()
    ensures |rs| == |tokens| && forall i :: 0 <= i < |tokens| ==> rs[i] == PositionForms(lex, md, filter, tokens[i])
  {
    seq(|tokens|, i requires 0 <= i < |tokens| && lex.Valid() reads lex => PositionForms(lex, md, filter, tokens[i]))
  }

  /** The positions looked up in turn; the first one that raises ends the loop with its error. */
  ghost function AllPositions(lex: Lexicons.Lexicon, md: MsdFormat.MorphoDictionary, filter: Option<Filter>,
                              tokens: seq<map<string, string>>): Result<seq<Option<seq<string>>>>
    reads lex
    requires lex.Valid()
  {
    FirstError(Lookups(lex, md, filter, tokens))
  }

  /** The result of `rule_to_forms`: every position's form list, or only the first form of each. */
  datatype Forms = Full(lists: seq<seq<string>>) | Reduced(firsts: seq<string>)

  /** A position that found nothing: an unknown lemma or no matching entry. */
  predicate NoForms(found: Option<seq<string>>) {
    found.None? || found.value == []
  }

  /** `if not all(form_list)`, then the lists or their first forms. */
  function Collected(found: seq<Option<seq<string>>>, reduce: bool): (r: Option<Forms>)
    ensures r.None? <==> exists i :: 0 <= i < |found| && NoForms(found[i])
    ensures r.Some? ==> (r.value.Reduced? <==> reduce)
    ensures r.Some? && !reduce ==>
              (|r.value.lists| == |found| &&
               forall i :: 0 <= i < |found| ==> Some(r.value.lists[i]) == found[i] && r.value.lists[i] != [])
    ensures r.Some? && reduce ==>
              (|r.value.firsts| == |found| &&
               forall i :: 0 <= i < |found| ==> found[i].Some? && found[i].value != [] && r.value.firsts[i] == found[i].value[0])
  {
    if exists i :: 0 <= i < |found| && NoForms(found[i]) then None
    else if reduce then Some(Reduced(seq(|found|, i requires 0 <= i < |found| => found[i].value[0])))
    else Some(Full(seq(|found|, i requires 0 <= i < |found| => found[i].value)))
  }

  /**
   * `rule_to_forms` as a value: the grammar's error is raised, no sequence gives none, and otherwise
   * the positions of the first sequence are looked up with the rule's filter.
   */
  ghost function RuleForms(lex: Lexicons.Lexicon, md: MsdFormat.MorphoDictionary, g: VerbGrammar.Grammar,
                           filters: map<string, Filter>, rule: string, vd: map<string, string>, reduce: bool): Result<Option<Forms>>
    reads lex
    requires lex.Valid()
  {
    match VerbGrammar.GrammarGenerate(g, rule, vd)
    case Err(m) => Err(m)
    case Ok(seqs) =>
      if seqs == [] then Ok(None)
      else
        match AllPositions(lex, md, Chosen(filters, rule), seqs[0])
        case Err(m) => Err(m)
        case Ok(found) => Ok(Collected(found, reduce))
  }

  /**
   * A rule has no forms exactly when the grammar yields no sequence, or every position of the first
   * one is looked up without raising and some position finds nothing.
   */
  lemma RuleFormsNone(lex: Lexicons.Lexicon, md: MsdFormat.MorphoDictionary, g: VerbGrammar.Grammar,
                      filters: map<string, Filter>, rule: string, vd: map<string, string>, reduce: bool)
    requires lex.Valid()
    requires VerbGrammar.GrammarGenerate(g, rule, vd).Ok?
    ensures var seqs := VerbGrammar.GrammarGenerate(g, rule, vd).value;
            RuleForms(lex, md, g, filters, rule, vd, reduce) == Ok(None) <==>
              (seqs == [] ||
               (AllPositions(lex, md, Chosen(filters, rule), seqs[0]).Ok? &&
                exists i :: 0 <= i < |seqs[0]| && PositionForms(lex, md, Chosen(filters, rule), seqs[0][i]).Ok? &&
                  NoForms(PositionForms(lex, md, Chosen(filters, rule), seqs[0][i]).value)))
  {
    var seqs := VerbGrammar.GrammarGenerate(g, rule, vd).value;
    if seqs != [] {
      var filter := Chosen(filters, rule);
      var looked := Lookups(lex, md, filter, seqs[0]);
      if FirstError(looked).Ok? {
        CollectedNone(looked, reduce);
      }
    }
  }

  /** With no error, nothing is collected exactly when some position found none or an empty list. */
  lemma CollectedNone(rs: seq<Result<Option<seq<string>>>>, reduce: bool)
    requires FirstError(rs).Ok?
    ensures Collected(FirstError(rs).value, reduce).None? <==> exists i :: 0 <= i < |rs| && rs[i].Ok? && NoForms(rs[i].value)
  {
    var found := FirstError(rs).value;
    if Collected(found, reduce).None? {
      var i :| 0 <= i < |found| && NoForms(found[i]);
      assert rs[i] == Ok(found[i]);
    }
    if exists i :: 0 <= i < |rs| && rs[i].Ok? && NoForms(rs[i].value) {
      var i :| 0 <= i < |rs| && rs[i].Ok? && NoForms(rs[i].value);
      assert rs[i] == Ok(found[i]);
    }
  }

  /**
   * When a rule has forms, every position of the first sequence has a lemma and an encodable tag,
   * and its entry holds the forms the lexicon finds for that lemma and tag with the rule's filter,
   * or, reduced, the first of them.
   */
  lemma RuleFormsFound(lex: Lexicons.Lexicon, md: MsdFormat.MorphoDictionary, g: VerbGrammar.Grammar,
                       filters: map<string, Filter>, rule: string, vd: map<string, string>, reduce: bool, i: nat)
    requires lex.Valid()
    requires RuleForms(lex, md, g, filters, rule, vd, reduce).Ok? && RuleForms(lex, md, g, filters, rule, vd, reduce).value.Some?
    ensures VerbGrammar.GrammarGenerate(g, rule, vd).Ok? && VerbGrammar.GrammarGenerate(g, rule, vd).value != []
    ensures var ts := VerbGrammar.GrammarGenerate(g, rule, vd).value[0];
            var forms := RuleForms(lex, md, g, filters, rule, vd, reduce).value.value;
            i < |ts| ==>
              "lemma" in ts[i] && TagOf(md, ts[i]).Ok? && TagOf(md, ts[i]).value.Some? &&
              var found := Found(lex, ts[i]["lemma"], TagOf(md, ts[i]).value.value, Chosen(filters, rule));
              found.Some? && found.value != [] &&
              if reduce then forms.firsts[i] == found.value[0] else forms.lists[i] == found.value
  {
    var ts := VerbGrammar.GrammarGenerate(g, rule, vd).value[0];
    var filter := Chosen(filters, rule);
    var all := AllPositions(lex, md, filter, ts);
    if i < |ts| {
      assert PositionForms(lex, md, filter, ts[i]) == Ok(all.value[i]);
    }
  }

  // ---------------------------------------------------------------------------------------------
  // The generator

  /** `SyntheticFormGenerator`: a lexicon, a morphological dictionary, a grammar and filters by rule name. */
  class SyntheticFormGenerator {
    const lex: Lexicons.Lexicon
    const morphDict: MsdFormat.MorphoDictionary
    const grammar: VerbGrammar.Grammar
    const filterFnDict: map<string, Filter>

    /** No filters given, or an empty dict, leaves the generator without filters. */
    constructor (lex: Lexicons.Lexicon, morphDict: MsdFormat.MorphoDictionary, grammar: VerbGrammar.Grammar,
                 filterFnDict: Option<map<string, Filter>>)
      ensures this.lex == lex && this.morphDict == morphDict && this.grammar == grammar
      ensures filterFnDict.Some? ==> this.filterFnDict == filterFnDict.value
      ensures filterFnDict.None? ==> this.filterFnDict == map[]
    {
      this.lex := lex;
      this.morphDict := morphDict;
      this.grammar := grammar;
      this.filterFnDict := filterFnDict.GetOr(map[]);
    }

    /**
     * `rule_to_forms`: the grammar expands the rule; with no sequence there are no forms; otherwise
     * each position of the first sequence is looked up in turn with the rule's filter.
     */
    method RuleToForms(rule: string, vd: map<string, string>, reduce: bool) returns (r: Result<Option<Forms>>)
      requires lex.Valid()
      ensures r == RuleForms(lex, morphDict, grammar, filterFnDict, rule, vd, reduce)
    {
      var featureSeq := VerbGrammar.GenerateBasedOn(grammar, rule, vd);
      if featureSeq.Err? {
        return Err(featureSeq.message);
      }
      if featureSeq.value == [] {
        return Ok(None);
      }
      var filterFn := Chosen(filterFnDict, rule);
      var tokens := featureSeq.value[0];
      var formList: seq<Option<seq<string>>> := [];
      ghost var looked := Lookups(lex, morphDict, filterFn, tokens);
      for i := 0 to |tokens|
        invariant FirstError(looked[..i]) == Ok(formList)
      {
        FirstErrorStep(looked, i);
        var token := tokens[i];
        if "lemma" !in token {
          FirstErrorSticks(looked, i + 1);
          return Err(LemmaKeyError);
        }
        var xpos := TagOf(morphDict, token);
        var forms := LookupTagged(lex, token["lemma"], xpos, filterFn);
        if forms.Err? {
          FirstErrorSticks(looked, i + 1);
          return Err(forms.message);
        }
        formList := formList + [forms.value];
      }
      assert looked[..|tokens|] == looked;
      return Ok(Collected(formList, reduce));
    }
  }
}
