/**
 * The Romanian tag dictionary of `generate_roMorphoDictionary` (server/ro_form_gen/msd_format.py):
 * the shared features, the eight word classes of the MULTEXT-East Version 6 Romanian
 * morphosyntactic descriptions, and the facts that put every class under the codec theorems.
 */
module RoDictionary {
  import opened Wrappers
  import opened MsdFormat

  const YesNo: Table := [('n', "No"), ('y', "Yes")]

  const PersonFeature := MorphoFeature("Person", [('1', "1"), ('2', "2"), ('3', "3")], "3", false)
  const NumberFeature := MorphoFeature("Number", [('s', "Sing"), ('p', "Plur")], "s", false)
  const GenderFeature := MorphoFeature("Gender", [('m', "Masc"), ('f', "Fem"), ('n', "Neutr")], "m", false)
  const DefiniteFeature := MorphoFeature("Definiteness", YesNo, "n", false)
  const Case2Feature := MorphoFeature("Case", [('v', "Voc"), ('r', "Dir"), ('o', "Obl")], "r", false)
  const Case4Feature := MorphoFeature("Case", [('v', "Voc"), ('n', "Nom"), ('g', "Gen"), ('d', "Dat"), ('a', "Acc")], "n", false)
  const CaseAllFeature := MorphoFeature("Case", Union(Case2Feature.values, Case4Feature.values), "r", false)
  const DegreeFeature := MorphoFeature("Degree", [('p', "Pos"), ('c', "Cmp"), ('s', "Sup")], "p", false)
  /** The one feature whose default is left unspecified in a tag. */
  const IsCliticFeature := MorphoFeature("Clitic", YesNo, "n", true)

  const VerbType := MorphoFeature("Type", [('m', "Main"), ('a', "Aux"), ('o', "Modal"), ('c', "Copula")], "m", false)
  const VerbMood := MorphoFeature("Mood", [('i', "Ind"), ('s', "Sub"), ('m', "Imp"), ('n', "Inf"), ('p', "Part"), ('g', "Ger")], "n", false)
  const VerbTense := MorphoFeature("Tense", [('p', "Pres"), ('i', "Imp"), ('s', "Past"), ('l', "Pqp")], "p", false)
  const AdjectiveType := MorphoFeature("Type", [('f', "qualificative")], "f", false)
  const NounType := MorphoFeature("Type", [('c', "Common"), ('p', "Proper")], "c", false)
  const ParticleType := MorphoFeature("Type", [('z', "Neg"), ('n', "Inf"), ('s', "Sub"), ('a', "Aspect"), ('f', "Fut")], "z", false)
  const NumeralType := MorphoFeature("Type", [('c', "Cardinal"), ('o', "Ordinal"), ('f', "Fractal"), ('m', "Multiple"), ('l', "Collect")], "c", false)
  const NumeralForm := MorphoFeature("Form", [('d', "Digit"), ('r', "Roman"), ('l', "Letter"), ('b', "Both")], "l", false)
  const DeterminerType := MorphoFeature("Type", [('d', "Dem"), ('i', "Indef"), ('s', "Poss"), ('w', "Rel"), ('z', "NEg"), ('h', "Emph")], "i", false)
  const OwnerNumber := MorphoFeature("Owner_Number", [('s', "Sing"), ('p', "Plur")], "s", false)
  const ModificType := MorphoFeature("Modific_Type", [('e', "Prenom"), ('o', "Postnom")], "e", false)
  const ArticleType := MorphoFeature("Type", [('f', "Def"), ('i', "Indef"), ('s', "Poss"), ('d', "Dem")], "i", false)
  const PronounType := MorphoFeature("Type", [('p', "personal"), ('d', "demonstrative"), ('i', "indefinite"), ('s', "possessive"),
                                              ('x', "reflexive"), ('z', "negative"), ('w', "int-rel")], "p", false)
  const PronounForm := MorphoFeature("Pronoun_Form", [('s', "Strong"), ('w', "Weak")], "s", false)

  const RoVerbs := MorphoClass("V", [
    Some(VerbType), Some(VerbMood), Some(VerbTense), Some(PersonFeature), Some(NumberFeature), Some(GenderFeature),
    Some(IsCliticFeature)])

  const RoAdjectives := MorphoClass("A", [
    Some(AdjectiveType), Some(DegreeFeature), Some(GenderFeature), Some(NumberFeature), Some(CaseAllFeature),
    Some(DefiniteFeature), Some(IsCliticFeature)])

  const RoNouns := MorphoClass("N", [
    Some(NounType), Some(GenderFeature), Some(NumberFeature), Some(Case2Feature), Some(DefiniteFeature), Some(IsCliticFeature)])

  const RoParticles := MorphoClass("Q", [Some(ParticleType), Some(IsCliticFeature)])

  const RoNumerals := MorphoClass("M", [
    Some(NumeralType), Some(GenderFeature), Some(NumberFeature), Some(Case2Feature), Some(NumeralForm),
    Some(DefiniteFeature), Some(IsCliticFeature)])

  const RoDeterminers := MorphoClass("D", [
    Some(DeterminerType), Some(PersonFeature), Some(GenderFeature), Some(NumberFeature), Some(Case2Feature),
    Some(OwnerNumber), Some(IsCliticFeature), Some(ModificType)])

  const RoArticles := MorphoClass("T", [
    Some(ArticleType), Some(GenderFeature), Some(NumberFeature), Some(Case2Feature), Some(IsCliticFeature)])

  /** Positions 7 and 9 to 13 of a pronoun tag are unused. */
  const RoPronouns := MorphoClass("P", [
    Some(PronounType), Some(PersonFeature), Some(GenderFeature), Some(NumberFeature), Some(CaseAllFeature),
    Some(OwnerNumber), None, Some(IsCliticFeature), None, None, None, None, None, Some(PronounForm)])

  const RoClasses := [RoAdjectives, RoNouns, RoVerbs, RoParticles, RoNumerals, RoDeterminers, RoArticles, RoPronouns]

  /** `generate_roMorphoDictionary`. */
  function RoMorphoDictionary(): MorphoDictionary {
    NewDictionary(RoClasses)
  }

  /** `Case2Feature.values | Case4Feature.values`: the two case tables share only 'v', with the same value name. */
  lemma CaseAllTable()
    ensures CaseAllFeature.values ==
      [('v', "Voc"), ('r', "Dir"), ('o', "Obl"), ('n', "Nom"), ('g', "Gen"), ('d', "Dat"), ('a', "Acc")]
  {
    CaseOverlaid();
    CaseNewEntries();
  }

  /** Overlaying the four-case table on the two-case one keeps the two-case entries: only 'v' is shared. */
  lemma CaseOverlaid()
    ensures Overlaid(Case2Feature.values, Case4Feature.values) == [('v', "Voc"), ('r', "Dir"), ('o', "Obl")]
  {
    var a := Case2Feature.values;
    assert a[..2] == [('v', "Voc"), ('r', "Dir")] && a[..2][..1] == [('v', "Voc")] && a[..2][..1][..0] == [];
  }

  /** The four-case entries the two-case table lacks: all but 'v', in order. */
  lemma CaseNewEntries()
    ensures NewEntries(Case4Feature.values, Case2Feature.values) == [('n', "Nom"), ('g', "Gen"), ('d', "Dat"), ('a', "Acc")]
  {
    var a := Case2Feature.values;
    var b := Case4Feature.values;
    HasSymbolAt(a, 0);
    NoSymbol(a, 'n');
    NoSymbol(a, 'g');
    NoSymbol(a, 'd');
    NoSymbol(a, 'a');
    var b1, b2, b3, b4 := b[..1], b[..2], b[..3], b[..4];
    assert b1[..0] == [] && b2[..1] == b1 && b3[..2] == b2 && b4[..3] == b3 && b[..4] == b4;
    assert NewEntries(b1, a) == [];
    assert NewEntries(b2, a) == [('n', "Nom")];
    assert NewEntries(b3, a) == [('n', "Nom"), ('g', "Gen")];
    assert NewEntries(b4, a) == [('n', "Nom"), ('g', "Gen"), ('d', "Dat")];
  }

  // Every feature of the dictionary is a codec feature: valid, with distinct symbols and value names, none of them '-'.

  lemma PersonCodec() ensures FeatureCodec(PersonFeature) { HasSymbolAt(PersonFeature.values, 2); NoSymbol(PersonFeature.values, Any); }
  lemma NumberCodec() ensures FeatureCodec(NumberFeature) { HasSymbolAt(NumberFeature.values, 0); NoSymbol(NumberFeature.values, Any); }
  lemma GenderCodec() ensures FeatureCodec(GenderFeature) { HasSymbolAt(GenderFeature.values, 0); NoSymbol(GenderFeature.values, Any); }
  lemma YesNoCodec() ensures FeatureCodec(DefiniteFeature) && FeatureCodec(IsCliticFeature) { HasSymbolAt(YesNo, 0); NoSymbol(YesNo, Any); }
  lemma Case2Codec() ensures FeatureCodec(Case2Feature) { HasSymbolAt(Case2Feature.values, 1); NoSymbol(Case2Feature.values, Any); }
  lemma CaseAllCodec() ensures FeatureCodec(CaseAllFeature) { CaseAllTable(); CaseAllLiteralCodec(); }

  lemma CaseAllLiteralCodec()
    ensures FeatureCodec(MorphoFeature("Case", [('v', "Voc"), ('r', "Dir"), ('o', "Obl"), ('n', "Nom"), ('g', "Gen"), ('d', "Dat"), ('a', "Acc")], "r", false))
  {
    var t := [('v', "Voc"), ('r', "Dir"), ('o', "Obl"), ('n', "Nom"), ('g', "Gen"), ('d', "Dat"), ('a', "Acc")];
    HasSymbolAt(t, 1);
    NoSymbol(t, Any);
  }
  lemma DegreeCodec() ensures FeatureCodec(DegreeFeature) { HasSymbolAt(DegreeFeature.values, 0); NoSymbol(DegreeFeature.values, Any); }
  lemma VerbTypeCodec() ensures FeatureCodec(VerbType) { HasSymbolAt(VerbType.values, 0); NoSymbol(VerbType.values, Any); }
  lemma VerbMoodCodec() ensures FeatureCodec(VerbMood) { HasSymbolAt(VerbMood.values, 3); NoSymbol(VerbMood.values, Any); }
  lemma VerbTenseCodec() ensures FeatureCodec(VerbTense) { HasSymbolAt(VerbTense.values, 0); NoSymbol(VerbTense.values, Any); }
  lemma AdjectiveTypeCodec() ensures FeatureCodec(AdjectiveType) { HasSymbolAt(AdjectiveType.values, 0); NoSymbol(AdjectiveType.values, Any); }
  lemma NounTypeCodec() ensures FeatureCodec(NounType) { HasSymbolAt(NounType.values, 0); NoSymbol(NounType.values, Any); }
  lemma ParticleTypeCodec() ensures FeatureCodec(ParticleType) { HasSymbolAt(ParticleType.values, 0); NoSymbol(ParticleType.values, Any); }
  lemma NumeralTypeCodec() ensures FeatureCodec(NumeralType) { HasSymbolAt(NumeralType.values, 0); NoSymbol(NumeralType.values, Any); }
  lemma NumeralFormCodec() ensures FeatureCodec(NumeralForm) { HasSymbolAt(NumeralForm.values, 2); NoSymbol(NumeralForm.values, Any); }
  lemma DeterminerTypeCodec() ensures FeatureCodec(DeterminerType) { HasSymbolAt(DeterminerType.values, 1); NoSymbol(DeterminerType.values, Any); }
  lemma OwnerNumberCodec() ensures FeatureCodec(OwnerNumber) { HasSymbolAt(OwnerNumber.values, 0); NoSymbol(OwnerNumber.values, Any); }
  lemma ModificTypeCodec() ensures FeatureCodec(ModificType) { HasSymbolAt(ModificType.values, 0); NoSymbol(ModificType.values, Any); }
  lemma ArticleTypeCodec() ensures FeatureCodec(ArticleType) { HasSymbolAt(ArticleType.values, 1); NoSymbol(ArticleType.values, Any); }
  lemma PronounTypeCodec() ensures FeatureCodec(PronounType) {
    var t := PronounType.values;
    HasSymbolAt(t, 0);
    NoSymbol(t, Any);
    assert DistinctSymbols(t);
    PronounTypeValues();
  }

  /** The seven pronoun types have seven different value names. */
  lemma PronounTypeValues() ensures DistinctValues(PronounType.values) {
    var t := PronounType.values;
    assert forall j :: 1 <= j < |t| ==> t[0].1 != t[j].1;
    assert forall i, j :: 1 <= i < j < |t| ==> t[i].1 != t[j].1;
  }
  lemma PronounFormCodec() ensures FeatureCodec(PronounForm) { HasSymbolAt(PronounForm.values, 0); NoSymbol(PronounForm.values, Any); }

  /** The features a class is made of, each shown to be a codec feature. */
  predicate CodecFeatures(c: MorphoClass) {
    forall k :: 0 <= k < |c.features| && c.features[k].Some? ==> FeatureCodec(c.features[k].value)
  }

  lemma CodecFromParts(c: MorphoClass)
    requires |c.category| == 1 && c.category[0] != Any && CodecFeatures(c) && DistinctNames(c.features)
    requires forall k :: 0 <= k < |c.features| && c.features[k].Some? ==> c.features[k].value.name != "category"
    ensures Codec(c)
  {
    NotInNames(c.features, "category");
  }

  lemma VerbsFeatures() ensures CodecFeatures(RoVerbs) {
    var fs := RoVerbs.features;
    forall k | 0 <= k < |fs| && fs[k].Some? ensures FeatureCodec(fs[k].value) {
      if k == 0 { VerbTypeCodec(); }
      else if k == 1 { VerbMoodCodec(); }
      else if k == 2 { VerbTenseCodec(); }
      else if k == 3 { PersonCodec(); }
      else if k == 4 { NumberCodec(); }
      else if k == 5 { GenderCodec(); }
      else { YesNoCodec(); }
    }
  }

  lemma VerbsNames()
    ensures DistinctNames(RoVerbs.features)
    ensures forall k :: 0 <= k < |RoVerbs.features| && RoVerbs.features[k].Some? ==> RoVerbs.features[k].value.name != "category"
  {
  }

  lemma VerbsCodec() ensures Codec(RoVerbs) {
    VerbsFeatures();
    VerbsNames();
    CodecFromParts(RoVerbs);
  }

  lemma AdjectivesFeatures() ensures CodecFeatures(RoAdjectives) {
    var fs := RoAdjectives.features;
    forall k | 0 <= k < |fs| && fs[k].Some? ensures FeatureCodec(fs[k].value) {
      if k == 0 { AdjectiveTypeCodec(); }
      else if k == 1 { DegreeCodec(); }
      else if k == 2 { GenderCodec(); }
      else if k == 3 { NumberCodec(); }
      else if k == 4 { CaseAllCodec(); }
      else if k == 5 { YesNoCodec(); }
      else { YesNoCodec(); }
    }
  }

  lemma AdjectivesNames()
    ensures DistinctNames(RoAdjectives.features)
    ensures forall k :: 0 <= k < |RoAdjectives.features| && RoAdjectives.features[k].Some? ==> RoAdjectives.features[k].value.name != "category"
  {
  }

  lemma AdjectivesCodec() ensures Codec(RoAdjectives) {
    AdjectivesFeatures();
    AdjectivesNames();
    CodecFromParts(RoAdjectives);
  }

  lemma NounsFeatures() ensures CodecFeatures(RoNouns) {
    var fs := RoNouns.features;
    forall k | 0 <= k < |fs| && fs[k].Some? ensures FeatureCodec(fs[k].value) {
      if k == 0 { NounTypeCodec(); }
      else if k == 1 { GenderCodec(); }
      else if k == 2 { NumberCodec(); }
      else if k == 3 { Case2Codec(); }
      else if k == 4 { YesNoCodec(); }
      else { YesNoCodec(); }
    }
  }

  lemma NounsNames()
    ensures DistinctNames(RoNouns.features)
    ensures forall k :: 0 <= k < |RoNouns.features| && RoNouns.features[k].Some? ==> RoNouns.features[k].value.name != "category"
  {
  }

  lemma NounsCodec() ensures Codec(RoNouns) {
    NounsFeatures();
    NounsNames();
    CodecFromParts(RoNouns);
  }

  lemma ParticlesFeatures() ensures CodecFeatures(RoParticles) {
    var fs := RoParticles.features;
    forall k | 0 <= k < |fs| && fs[k].Some? ensures FeatureCodec(fs[k].value) {
      if k == 0 { ParticleTypeCodec(); }
      else { YesNoCodec(); }
    }
  }

  lemma ParticlesNames()
    ensures DistinctNames(RoParticles.features)
    ensures forall k :: 0 <= k < |RoParticles.features| && RoParticles.features[k].Some? ==> RoParticles.features[k].value.name != "category"
  {
  }

  lemma ParticlesCodec() ensures Codec(RoParticles) {
    ParticlesFeatures();
    ParticlesNames();
    CodecFromParts(RoParticles);
  }

  lemma NumeralsFeatures() ensures CodecFeatures(RoNumerals) {
    var fs := RoNumerals.features;
    forall k | 0 <= k < |fs| && fs[k].Some? ensures FeatureCodec(fs[k].value) {
      if k == 0 { NumeralTypeCodec(); }
      else if k == 1 { GenderCodec(); }
      else if k == 2 { NumberCodec(); }
      else if k == 3 { Case2Codec(); }
      else if k == 4 { NumeralFormCodec(); }
      else if k == 5 { YesNoCodec(); }
      else { YesNoCodec(); }
    }
  }

  lemma NumeralsNames()
    ensures DistinctNames(RoNumerals.features)
    ensures forall k :: 0 <= k < |RoNumerals.features| && RoNumerals.features[k].Some? ==> RoNumerals.features[k].value.name != "category"
  {
  }

  lemma NumeralsCodec() ensures Codec(RoNumerals) {
    NumeralsFeatures();
    NumeralsNames();
    CodecFromParts(RoNumerals);
  }

  lemma DeterminersFeatures() ensures CodecFeatures(RoDeterminers) {
    var fs := RoDeterminers.features;
    forall k | 0 <= k < |fs| && fs[k].Some? ensures FeatureCodec(fs[k].value) {
      if k == 0 { DeterminerTypeCodec(); }
      else if k == 1 { PersonCodec(); }
      else if k == 2 { GenderCodec(); }
      else if k == 3 { NumberCodec(); }
      else if k == 4 { Case2Codec(); }
      else if k == 5 { OwnerNumberCodec(); }
      else if k == 6 { YesNoCodec(); }
      else { ModificTypeCodec(); }
    }
  }

  lemma DeterminersNames()
    ensures DistinctNames(RoDeterminers.features)
    ensures forall k :: 0 <= k < |RoDeterminers.features| && RoDeterminers.features[k].Some? ==> RoDeterminers.features[k].value.name != "category"
  {
  }

  lemma DeterminersCodec() ensures Codec(RoDeterminers) {
    DeterminersFeatures();
    DeterminersNames();
    CodecFromParts(RoDeterminers);
  }

  lemma ArticlesFeatures() ensures CodecFeatures(RoArticles) {
    var fs := RoArticles.features;
    forall k | 0 <= k < |fs| && fs[k].Some? ensures FeatureCodec(fs[k].value) {
      if k == 0 { ArticleTypeCodec(); }
      else if k == 1 { GenderCodec(); }
      else if k == 2 { NumberCodec(); }
      else if k == 3 { Case2Codec(); }
      else { YesNoCodec(); }
    }
  }

  lemma ArticlesNames()
    ensures DistinctNames(RoArticles.features)
    ensures forall k :: 0 <= k < |RoArticles.features| && RoArticles.features[k].Some? ==> RoArticles.features[k].value.name != "category"
  {
  }

  lemma ArticlesCodec() ensures Codec(RoArticles) {
    ArticlesFeatures();
    ArticlesNames();
    CodecFromParts(RoArticles);
  }

  lemma PronounsFeatures() ensures CodecFeatures(RoPronouns) {
    var fs := RoPronouns.features;
    forall k | 0 <= k < |fs| && fs[k].Some? ensures FeatureCodec(fs[k].value) {
      if k == 0 { PronounTypeCodec(); }
      else if k == 1 { PersonCodec(); }
      else if k == 2 { GenderCodec(); }
      else if k == 3 { NumberCodec(); }
      else if k == 4 { CaseAllCodec(); }
      else if k == 5 { OwnerNumberCodec(); }
      else if k == 7 { YesNoCodec(); }
      else { assert k == 13; PronounFormCodec(); }
    }
  }

  lemma PronounsNames()
    ensures DistinctNames(RoPronouns.features)
    ensures forall k :: 0 <= k < |RoPronouns.features| && RoPronouns.features[k].Some? ==> RoPronouns.features[k].value.name != "category"
  {
  }

  lemma PronounsCodec() ensures Codec(RoPronouns) {
    PronounsFeatures();
    PronounsNames();
    CodecFromParts(RoPronouns);
  }

  /** The eight categories are distinct, so each class is filed under its own category and nothing else is filed. */
  lemma RoDictionaryClasses()
    ensures forall i :: 0 <= i < |RoClasses| ==>
      RoClasses[i].category in RoMorphoDictionary() && RoMorphoDictionary()[RoClasses[i].category] == RoClasses[i]
    ensures forall k :: k in RoMorphoDictionary() ==> exists i :: 0 <= i < |RoClasses| && RoClasses[i].category == k
  {
    forall i | 0 <= i < |RoClasses|
      ensures RoClasses[i].category in RoMorphoDictionary() && RoMorphoDictionary()[RoClasses[i].category] == RoClasses[i]
    {
      LaterClassWins(RoClasses, i);
    }
  }

  /** Every class of the Romanian dictionary is a codec class filed under its category, so the round trips hold for it. */
  lemma RoDictionaryCodec()
    ensures DictCodec(RoMorphoDictionary())
  {
    var md := RoMorphoDictionary();
    RoDictionaryClasses();
    forall k | k in md
      ensures md[k].category == k && Codec(md[k])
    {
      var i :| 0 <= i < |RoClasses| && RoClasses[i].category == k;
      if i == 0 { AdjectivesCodec(); }
      else if i == 1 { NounsCodec(); }
      else if i == 2 { VerbsCodec(); }
      else if i == 3 { ParticlesCodec(); }
      else if i == 4 { NumeralsCodec(); }
      else if i == 5 { DeterminersCodec(); }
      else if i == 6 { ArticlesCodec(); }
      else { PronounsCodec(); }
    }
  }

  /** Each category letter of the dictionary names its class. */
  lemma RoLookup()
    ensures "A" in RoMorphoDictionary() && RoMorphoDictionary()["A"] == RoAdjectives
    ensures "N" in RoMorphoDictionary() && RoMorphoDictionary()["N"] == RoNouns
    ensures "V" in RoMorphoDictionary() && RoMorphoDictionary()["V"] == RoVerbs
    ensures "Q" in RoMorphoDictionary() && RoMorphoDictionary()["Q"] == RoParticles
    ensures "M" in RoMorphoDictionary() && RoMorphoDictionary()["M"] == RoNumerals
    ensures "D" in RoMorphoDictionary() && RoMorphoDictionary()["D"] == RoDeterminers
    ensures "T" in RoMorphoDictionary() && RoMorphoDictionary()["T"] == RoArticles
    ensures "P" in RoMorphoDictionary() && RoMorphoDictionary()["P"] == RoPronouns
  {
    RoDictionaryClasses();
    assert RoClasses[0] == RoAdjectives && RoClasses[1] == RoNouns && RoClasses[2] == RoVerbs && RoClasses[3] == RoParticles;
    assert RoClasses[4] == RoNumerals && RoClasses[5] == RoDeterminers && RoClasses[6] == RoArticles && RoClasses[7] == RoPronouns;
  }
}
