/**
 * The word-form generator (server/ro_form_gen/word_info_extractor.py, `WordFormGenerator`): a word
 * described by its lemma and features gets its forms either from a synthetic rule of the verb
 * grammar, when the features name one, or from one lexicon lookup with the tag its features encode.
 */
module WordForms {
  import opened Wrappers
  import MsdFormat
  import VerbGrammar
  import Lexicons
  import SyntheticForms

  /** The feature that names a synthetic rule. */
  const SynthForm: string := "SynthForm"

  /** `filterFnDict.get(DEFAULT)`: the default filter, if the generator has one. */
  function DefaultFilter(filters: map<string, SyntheticForms.Filter>): (f: Option<SyntheticForms.Filter>)
    ensures f.Some? <==> SyntheticForms.Default in filters
    ensures f.Some? ==> f.value == filters[SyntheticForms.Default]
  {
    if SyntheticForms.Default in filters then Some(filters[SyntheticForms.Default]) else None
  }

  /** A single position is collected as itself: nothing when it found nothing, else its list or first form. */
  lemma CollectedOne(found: Option<seq<string>>, reduce: bool)
    ensures SyntheticForms.Collected([found], reduce) ==
              if SyntheticForms.NoForms(found) then None
              else if reduce then Some(SyntheticForms.Reduced([found.value[0]]))
              else Some(SyntheticForms.Full([found.value]))
  {
    var c := SyntheticForms.Collected([found], reduce);
    if c.Some? {
      assert !SyntheticForms.NoForms([found][0]);
      if reduce {
        assert c.value.firsts == [found.value[0]];
      } else {
        assert c.value.lists == [found.value];
      }
    } else {
      assert SyntheticForms.NoForms([found][0]);
    }
  }

  /** A single outcome taken in turn is its own error, or its value alone. */
  lemma FirstErrorOne<T>(x: Result<T>)
    ensures SyntheticForms.FirstError([x]) == match x case Err(m) => Err(m) case Ok(v) => Ok([v])
  {
    var none: seq<Result<T>> := [];
    assert [x][..0] == none && SyntheticForms.FirstError(none) == Ok([]);
    if x.Ok? {
      var vs: seq<T> := [];
      assert vs + [x.value] == [x.value];
    }
  }

  /** The forms of a word looked up directly: none when nothing is found, else the list or its first form. */
  ghost function DirectForms(lex: Lexicons.Lexicon, md: MsdFormat.MorphoDictionary, filters: map<string, SyntheticForms.Filter>,
                             fd: map<string, string>, reduce: bool): Result<Option<SyntheticForms.Forms>>
    reads lex
    requires lex.Valid() && "lemma" in fd
  {
    match SyntheticForms.TagLookup(lex, fd["lemma"], MsdFormat.DictTagFromFeatures(md, fd, false), DefaultFilter(filters))
    case Err(m) => Err(m)
    case Ok(forms) => Ok(SyntheticForms.Collected([forms], reduce))
  }

  /**
   * `generate_form` as a value: no lemma gives none; a synthetic rule gives that rule's forms, the
   * features serving as its values; otherwise the direct lookup.
   */
  ghost function GeneratedForm(lex: Lexicons.Lexicon, md: MsdFormat.MorphoDictionary, g: VerbGrammar.Grammar,
                               filters: map<string, SyntheticForms.Filter>, fd: map<string, string>, reduce: bool): Result<Option<SyntheticForms.Forms>>
    reads lex
    requires lex.Valid()
  {
    if "lemma" !in fd then Ok(None)
    else if SynthForm in fd then SyntheticForms.RuleForms(lex, md, g, filters, fd[SynthForm], fd, reduce)
    else DirectForms(lex, md, filters, fd, reduce)
  }

  /**
   * A direct lookup yields one entry exactly when the features encode a tag, the lemma is known, and
   * the lexicon finds some form for them with the default filter; that entry is the forms found, or,
   * reduced, the first of them.
   */
  lemma DirectFormsFound(lex: Lexicons.Lexicon, md: MsdFormat.MorphoDictionary, filters: map<string, SyntheticForms.Filter>,
                         fd: map<string, string>, reduce: bool)
    requires lex.Valid() && "lemma" in fd
    ensures var tag := MsdFormat.DictTagFromFeatures(md, fd, false);
            var r := DirectForms(lex, md, filters, fd, reduce);
            (r.Ok? && r.value.Some?) <==>
              (tag.Ok? && tag.value.Some? &&
               var found := SyntheticForms.Found(lex, fd["lemma"], tag.value.value, DefaultFilter(filters));
               found.Some? && found.value != [])
    ensures var tag := MsdFormat.DictTagFromFeatures(md, fd, false);
            var r := DirectForms(lex, md, filters, fd, reduce);
            r.Ok? && r.value.Some? ==>
              var found := SyntheticForms.Found(lex, fd["lemma"], tag.value.value, DefaultFilter(filters));
              if reduce then r.value.value == SyntheticForms.Reduced([found.value[0]])
              else r.value.value == SyntheticForms.Full([found.value])
  {
    var tag := MsdFormat.DictTagFromFeatures(md, fd, false);
    var looked := SyntheticForms.TagLookup(lex, fd["lemma"], tag, DefaultFilter(filters));
    if looked.Ok? {
      CollectedOne(looked.value, reduce);
    }
  }

  /**
   * A direct lookup raises exactly when the features cannot be encoded, or when they encode no tag
   * while the lemma is known.
   */
  lemma DirectFormsRaise(lex: Lexicons.Lexicon, md: MsdFormat.MorphoDictionary, filters: map<string, SyntheticForms.Filter>,
                         fd: map<string, string>, reduce: bool)
    requires lex.Valid() && "lemma" in fd
    ensures var tag := MsdFormat.DictTagFromFeatures(md, fd, false);
            DirectForms(lex, md, filters, fd, reduce).Err? <==>
              (tag.Err? || (tag.value.None? && fd["lemma"] in lex.lemmaDict))
    ensures var tag := MsdFormat.DictTagFromFeatures(md, fd, false);
            tag.Err? ==> DirectForms(lex, md, filters, fd, reduce) == Err(tag.message)
  {
  }

  /**
   * The direct lookup is the synthetic path's collection over a single position: asking a rule whose
   * first sequence is just these features, with the default filter, collects the same forms.
   */
  lemma DirectIsOnePosition(lex: Lexicons.Lexicon, md: MsdFormat.MorphoDictionary, filters: map<string, SyntheticForms.Filter>,
                            fd: map<string, string>, reduce: bool)
    requires lex.Valid() && "lemma" in fd
    requires forall k :: k in fd ==> fd[k] != VerbGrammar.AgreeValue
    ensures SyntheticForms.AllPositions(lex, md, DefaultFilter(filters), [fd]).Ok? <==> DirectForms(lex, md, filters, fd, reduce).Ok?
    ensures DirectForms(lex, md, filters, fd, reduce).Ok? ==>
              DirectForms(lex, md, filters, fd, reduce) == Ok(SyntheticForms.Collected(SyntheticForms.AllPositions(lex, md, DefaultFilter(filters), [fd]).value, reduce))
  {
    assert SyntheticForms.Unagreed(fd) == fd;
    var rs := SyntheticForms.Lookups(lex, md, DefaultFilter(filters), [fd]);
    assert rs == [SyntheticForms.PositionForms(lex, md, DefaultFilter(filters), fd)];
    FirstErrorOne(rs[0]);
  }

  /** `WordFormGenerator`: a lexicon, a morphological dictionary, a grammar, filters by rule name and the synthetic generator over them. */
  class WordFormGenerator {
    const lex: Lexicons.Lexicon
    const morphDict: MsdFormat.MorphoDictionary
    const grammar: VerbGrammar.Grammar
    const filterFnDict: map<string, SyntheticForms.Filter>
    const synthFormGenerator: SyntheticForms.SyntheticFormGenerator

    /** The synthetic generator shares the lexicon, the dictionary, the grammar and the filters. */
    ghost predicate Valid()
      reads lex
    {
      lex.Valid() &&
      synthFormGenerator.lex == lex && synthFormGenerator.morphDict == morphDict &&
      synthFormGenerator.grammar == grammar && synthFormGenerator.filterFnDict == filterFnDict
    }

    /** No filters given, or an empty dict, leaves both generators without filters. */
    constructor (lex: Lexicons.Lexicon, morphDict: MsdFormat.MorphoDictionary, grammar: VerbGrammar.Grammar,
                 filterFnDict: Option<map<string, SyntheticForms.Filter>>)
      requires lex.Valid()
      ensures Valid()
      ensures this.lex == lex && this.morphDict == morphDict && this.grammar == grammar
      ensures this.filterFnDict == filterFnDict.GetOr(map[])
    {
      this.lex := lex;
      this.morphDict := morphDict;
      this.grammar := grammar;
      this.filterFnDict := filterFnDict.GetOr(map[]);
      this.synthFormGenerator := new SyntheticForms.SyntheticFormGenerator(lex, morphDict, grammar, filterFnDict);
    }

    /** `generate_form`: the forms of a word, by its synthetic rule or by one lookup. */
    method GenerateForm(featureDict: map<string, string>, reduce: bool) returns (r: Result<Option<SyntheticForms.Forms>>)
      requires Valid()
      ensures r == GeneratedForm(lex, morphDict, grammar, filterFnDict, featureDict, reduce)
    {
      if "lemma" !in featureDict {
        return Ok(None);
      }
      if SynthForm in featureDict {
        r := synthFormGenerator.RuleToForms(featureDict[SynthForm], featureDict, reduce);
        return;
      }
      var tag := MsdFormat.DictTagFromFeatures(morphDict, featureDict, false);
      var forms := SyntheticForms.LookupTagged(lex, featureDict["lemma"], tag, DefaultFilter(filterFnDict));
      if forms.Err? {
        return Err(forms.message);
      }
      CollectedOne(forms.value, reduce);
      if forms.value.None? || forms.value.value == [] {
        return Ok(None);
      }
      if reduce {
        r := Ok(Some(SyntheticForms.Reduced([forms.value.value[0]])));
      } else {
        r := Ok(Some(SyntheticForms.Full([forms.value.value])));
      }
    }
  }
}
