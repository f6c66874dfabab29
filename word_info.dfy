/**
 * Tag handling around the word-form generator (server/ro_form_gen/word_info_extractor.py): the repair
 * of ten-character determiner tags, and the table of treebank tags the Romanian dictionary rejects,
 * each with the replacement it decodes instead.
 */
module WordInfo {
  import opened Wrappers
  import opened MsdFormat
  import opened RoDictionary

  // ---------------------------------------------------------------------------------------------
  // The determiner tag repair: `xpos[::-1].replace('--', '-', 1)[::-1]`
  // ---------------------------------------------------------------------------------------------

  function Reversed(s: string): (r: string)
    ensures |r| == |s| && forall j :: 0 <= j < |s| ==> r[j] == s[|s| - 1 - j]
  {
    seq(|s|, j requires 0 <= j < |s| => s[|s| - 1 - j])
  }

  predicate DoubleDashAt(s: string, i: int) {
    0 <= i && i + 1 < |s| && s[i] == '-' && s[i + 1] == '-'
  }

  /** The first position at or after i where "--" starts. */
  function FirstDoubleDash(s: string, i: nat): (p: Option<nat>)
    requires i <= |s|
    ensures p.Some? ==> i <= p.value && DoubleDashAt(s, p.value) && forall j :: i <= j < p.value ==> !DoubleDashAt(s, j)
    ensures p.None? ==> forall j :: i <= j ==> !DoubleDashAt(s, j)
    decreases |s| - i
  {
    if i + 1 >= |s| then None
    else if s[i] == '-' && s[i + 1] == '-' then Some(i)
    else FirstDoubleDash(s, i + 1)
  }

  /** `s.replace('--', '-', 1)`: the leftmost "--" becomes "-". */
  function ReplaceFirstDoubleDash(s: string): string {
    match FirstDoubleDash(s, 0)
    case None => s
    case Some(p) => s[..p] + "-" + s[p + 2..]
  }

  /** The repair applied to a ten-character determiner tag. */
  function CollapseLastDoubleDash(x: string): string {
    Reversed(ReplaceFirstDoubleDash(Reversed(x)))
  }

  /**
   * The repair of `get_lemma_and_features`: a ten-character tag starting with 'D' has its last "--"
   * collapsed to "-"; any other tag is kept. The first character of an empty tag raises.
   */
  function RepairDeterminerTag(xpos: string): (r: Result<string>)
    ensures r.Err? <==> xpos == []
    ensures r.Ok? && !(xpos[0] == 'D' && |xpos| == 10) ==> r.value == xpos
  {
    if |xpos| == 0 then Err("string index out of range")
    else if xpos[0] == 'D' && |xpos| == 10 then Ok(CollapseLastDoubleDash(xpos))
    else Ok(xpos)
  }

  lemma ReversedTwice(s: string)
    ensures Reversed(Reversed(s)) == s
  {
  }

  /**
   * Collapsing the last "--": without one the tag is unchanged; otherwise the dash at the rightmost
   * start p of a "--" is dropped, which shortens the tag by one and keeps everything else in order.
   */
  lemma CollapseSpec(x: string)
    ensures (forall p :: !DoubleDashAt(x, p)) ==> CollapseLastDoubleDash(x) == x
    ensures forall p :: DoubleDashAt(x, p) && (forall q :: p < q ==> !DoubleDashAt(x, q)) ==>
      CollapseLastDoubleDash(x) == x[..p] + x[p + 1..]
  {
    if forall p :: !DoubleDashAt(x, p) {
      CollapseNone(x);
    }
    forall p | DoubleDashAt(x, p) && (forall q :: p < q ==> !DoubleDashAt(x, q))
      ensures CollapseLastDoubleDash(x) == x[..p] + x[p + 1..]
    {
      CollapseAt(x, p);
    }
  }

  /** A "--" in the reversed tag at j is a "--" of the tag at |x| - 2 - j. */
  lemma ReversedDoubleDash(x: string, j: int)
    ensures DoubleDashAt(Reversed(x), j) <==> DoubleDashAt(x, |x| - 2 - j)
  {
  }

  lemma CollapseNone(x: string)
    requires forall p :: !DoubleDashAt(x, p)
    ensures CollapseLastDoubleDash(x) == x
  {
    var rx := Reversed(x);
    if FirstDoubleDash(rx, 0).Some? {
      var j := FirstDoubleDash(rx, 0).value;
      ReversedDoubleDash(x, j);
      assert false;
    }
    ReversedTwice(x);
  }

  lemma CollapseAt(x: string, p: int)
    requires DoubleDashAt(x, p) && forall q :: p < q ==> !DoubleDashAt(x, q)
    ensures CollapseLastDoubleDash(x) == x[..p] + x[p + 1..]
  {
    var n := |x|;
    var rx := Reversed(x);
    var j := n - 2 - p;
    ReversedDoubleDash(x, j);
    var f := FirstDoubleDash(rx, 0);
    if f.None? {
      assert false;
    }
    var j' := f.value;
    assert j' <= j;
    ReversedDoubleDash(x, j');
    assert j' == j;
    assert ReplaceFirstDoubleDash(rx) == rx[..j] + "-" + rx[j + 2..];
    DroppedDash(x, p);
  }

  /** Collapsing the "--" of the reversed tag at |x| - 2 - p drops the dash at p from the tag. */
  lemma DroppedDash(x: string, p: int)
    requires DoubleDashAt(x, p)
    ensures var rx := Reversed(x);
      var j := |x| - 2 - p;
      Reversed(rx[..j] + "-" + rx[j + 2..]) == x[..p] + x[p + 1..]
  {
    var n := |x|;
    var rx := Reversed(x);
    var j := n - 2 - p;
    var y := rx[..j] + "-" + rx[j + 2..];
    var r := Reversed(y);
    var z := x[..p] + x[p + 1..];
    assert |y| == n - 1 && |z| == n - 1;
    forall k | 0 <= k < n - 1
      ensures r[k] == z[k]
    {
      var i := n - 2 - k;
      assert r[k] == y[i];
      if k > p {
        assert y[i] == rx[i] == x[k + 1] == z[k];
      } else if k == p {
        assert y[i] == '-' == x[p + 1] == z[k];
      } else {
        assert y[i] == rx[i + 1] == x[k] == z[k];
      }
    }
  }

  /** A ten-character determiner tag with a "--" comes out one character shorter; without one it is unchanged. */
  lemma RepairLength(xpos: string)
    requires |xpos| == 10 && xpos[0] == 'D'
    ensures (exists p :: DoubleDashAt(xpos, p)) ==> |RepairDeterminerTag(xpos).value| == 9
    ensures (forall p :: !DoubleDashAt(xpos, p)) ==> RepairDeterminerTag(xpos).value == xpos
  {
    CollapseSpec(xpos);
    if p :| DoubleDashAt(xpos, p) {
      var last := LastDoubleDash(xpos, p);
      assert CollapseLastDoubleDash(xpos) == xpos[..last] + xpos[last + 1..];
    }
  }

  /** The rightmost start of a "--" at or after a known one. */
  function LastDoubleDash(x: string, p: nat): (q: nat)
    requires DoubleDashAt(x, p)
    ensures p <= q && DoubleDashAt(x, q) && forall r :: q < r ==> !DoubleDashAt(x, r)
    decreases |x| - p
  {
    match FirstDoubleDash(x, p + 1)
    case None => p
    case Some(p') => LastDoubleDash(x, p')
  }

  // ---------------------------------------------------------------------------------------------
  // The bad-tag table
  // ---------------------------------------------------------------------------------------------

  /** `bad_tag_dict`: tags of the treebank that the Romanian classes reject, each with its replacement. */
  const BadTagEntries: seq<(string, string)> := [
    ("Vmg-------y", "Vmg----y"),
    ("Qz-y", "Qzy"),
    ("Va--3s----y", "Va--3s-y"),
    ("Qs-y", "Qsy"),
    ("Va--3-----y", "Va--3--y"),
    ("Vmip1s----y", "Vmip1s-y"),
    ("Va--3p----y", "Va--3p-y"),
    ("Vaip3s----y", "Vaip3s-y"),
    ("Vmii3p----y", "Vmii3p-y"),
    ("Vmsp3-----y", "Vmsp3--y"),
    ("Vmii1-----y", "Vmii1--y"),
    ("Vmip3-----y", "Vmip3--y"),
    ("Vmm-2s----y", "Vmm-2s-y"),
    ("Vmip3s----y", "Vmip3s-y"),
    ("Qn-y", "Qny"),
    ("Ds3msrs-y", "Ds3msrsy"),
    ("Vag-------y", "Vag----y"),
    ("Ncmrn", "Ncmprn"),
    ("Vmip2s----y", "Vmip2s-y"),
    ("Di3-----y", "Di3----y"),
    ("Dd3fpr--y", "Dd3fpr-y"),
    ("Vaip3p----y", "Vaip3p-y"),
    ("Va--2p----y", "Va--2p-y"),
    ("Ds1msrs-y", "Ds1msrsy"),
    ("Vmnp------y", "Vmnp---y"),
    ("Va--2s----y", "Va--2s-y"),
    ("Ds1fsrs-y", "Ds1fsrsy"),
    ("Vmp--sm---y", "Vmp--smy"),
    ("Di3-sr--y", "Di3-sr-y"),
    ("Va--1s----y", "Va--1s-y"),
    ("Vmip1p----y", "Vmip1p-y"),
    ("Va--1-----y", "Va--1--y"),
    ("Vmis3s----y", "Vmis3s-y"),
    ("Vmil3s----y", "Vmil3s-y"),
    ("Vmis3p----y", "Vmis3p-y"),
    ("Vmil3p----y", "Vmil3p-y"),
    ("Vmii3s----y", "Vmii3s-y")
  ]


  /** A dict built from a literal: later entries win. */
  function DictOf(entries: seq<(string, string)>): (d: map<string, string>)
    ensures forall k :: k in d ==> exists j :: 0 <= j < |entries| && entries[j] == (k, d[k])
  {
    if entries == [] then map[]
    else
      var d := DictOf(entries[..|entries| - 1]);
      var e := entries[|entries| - 1];
      assert forall k :: k in d ==> exists j :: 0 <= j < |entries| && entries[j] == (k, d[k]) by {
        forall k | k in d ensures exists j :: 0 <= j < |entries| && entries[j] == (k, d[k]) {
          var j :| 0 <= j < |entries| - 1 && entries[..|entries| - 1][j] == (k, d[k]);
          assert entries[j] == (k, d[k]);
        }
      }
      d[e.0 := e.1]
  }

  const BadTagDict: map<string, string> := DictOf(BadTagEntries)

  /** Without repair, the Romanian dictionary raises on the tag. */
  predicate KeyRejected(xpos: string) {
    DictFeaturesFromTag(RoMorphoDictionary(), xpos, map[]).Err?
  }

  /** Without repair, the Romanian dictionary decodes the tag with the class of its category. */
  predicate ReplacementAccepted(xpos: string) {
    DictFeaturesFromTag(RoMorphoDictionary(), xpos, map[]).Ok? && DictFeaturesFromTag(RoMorphoDictionary(), xpos, map[]).value.Some?
  }

  /** A tag a dictionary class writes decodes through the dictionary. */
  lemma CanonicalAccepted(c: MorphoClass, x: string)
    requires Codec(c) && Canonical(c, x) && [x[0]] in RoMorphoDictionary() && RoMorphoDictionary()[[x[0]]] == c
    ensures ReplacementAccepted(x)
  {
    DecodeCanonical(c, x, map[]);
  }

  lemma VerbsRejects(x: string)
    requires |x| > 0 && x[0] == 'V' && FeaturesFromTag(RoVerbs, x, map[]).Err?
    ensures KeyRejected(x)
  {
    RoLookup();
  }

  lemma VerbsAccepts(x: string)
    requires Canonical(RoVerbs, x) && x[0] == 'V'
    ensures ReplacementAccepted(x)
  {
    RoLookup();
    VerbsCodec();
    CanonicalAccepted(RoVerbs, x);
  }

  lemma ParticlesRejects(x: string)
    requires |x| > 0 && x[0] == 'Q' && FeaturesFromTag(RoParticles, x, map[]).Err?
    ensures KeyRejected(x)
  {
    RoLookup();
  }

  lemma ParticlesAccepts(x: string)
    requires Canonical(RoParticles, x) && x[0] == 'Q'
    ensures ReplacementAccepted(x)
  {
    RoLookup();
    ParticlesCodec();
    CanonicalAccepted(RoParticles, x);
  }

  lemma DeterminersRejects(x: string)
    requires |x| > 0 && x[0] == 'D' && FeaturesFromTag(RoDeterminers, x, map[]).Err?
    ensures KeyRejected(x)
  {
    RoLookup();
  }

  lemma DeterminersAccepts(x: string)
    requires Canonical(RoDeterminers, x) && x[0] == 'D'
    ensures ReplacementAccepted(x)
  {
    RoLookup();
    DeterminersCodec();
    CanonicalAccepted(RoDeterminers, x);
  }

  lemma NounsRejects(x: string)
    requires |x| > 0 && x[0] == 'N' && FeaturesFromTag(RoNouns, x, map[]).Err?
    ensures KeyRejected(x)
  {
    RoLookup();
  }

  lemma NounsAccepts(x: string)
    requires Canonical(RoNouns, x) && x[0] == 'N'
    ensures ReplacementAccepted(x)
  {
    RoLookup();
    NounsCodec();
    CanonicalAccepted(RoNouns, x);
  }

  lemma BadTagEntry0()
    ensures BadTagEntries[0] == ("Vmg-------y", "Vmg----y")
    ensures KeyRejected("Vmg-------y") && ReplacementAccepted("Vmg----y")
  {
    assert BadTagEntries[0] == ("Vmg-------y", "Vmg----y");
    VerbsRejects("Vmg-------y");
    Replacement0();
  }

  lemma Replacement0()
    ensures ReplacementAccepted("Vmg----y")
  {
    assert Canonical(RoVerbs, "Vmg----y") by {
      HasSymbolAt(VerbType.values, 0); HasSymbolAt(VerbMood.values, 5); HasSymbolAt(IsCliticFeature.values, 1);
    }
    VerbsAccepts("Vmg----y");
  }

  lemma BadTagEntry1()
    ensures BadTagEntries[1] == ("Qz-y", "Qzy")
    ensures KeyRejected("Qz-y") && ReplacementAccepted("Qzy")
  {
    assert BadTagEntries[1] == ("Qz-y", "Qzy");
    ParticlesRejects("Qz-y");
    Replacement1();
  }

  lemma Replacement1()
    ensures ReplacementAccepted("Qzy")
  {
    assert Canonical(RoParticles, "Qzy") by {
      HasSymbolAt(ParticleType.values, 0); HasSymbolAt(IsCliticFeature.values, 1);
    }
    ParticlesAccepts("Qzy");
  }

  lemma BadTagEntry2()
    ensures BadTagEntries[2] == ("Va--3s----y", "Va--3s-y")
    ensures KeyRejected("Va--3s----y") && ReplacementAccepted("Va--3s-y")
  {
    assert BadTagEntries[2] == ("Va--3s----y", "Va--3s-y");
    VerbsRejects("Va--3s----y");
    Replacement2();
  }

  lemma Replacement2()
    ensures ReplacementAccepted("Va--3s-y")
  {
    assert Canonical(RoVerbs, "Va--3s-y") by {
      HasSymbolAt(VerbType.values, 1); HasSymbolAt(PersonFeature.values, 2); HasSymbolAt(NumberFeature.values, 0); HasSymbolAt(IsCliticFeature.values, 1);
    }
    VerbsAccepts("Va--3s-y");
  }

  lemma BadTagEntry3()
    ensures BadTagEntries[3] == ("Qs-y", "Qsy")
    ensures KeyRejected("Qs-y") && ReplacementAccepted("Qsy")
  {
    assert BadTagEntries[3] == ("Qs-y", "Qsy");
    ParticlesRejects("Qs-y");
    Replacement3();
  }

  lemma Replacement3()
    ensures ReplacementAccepted("Qsy")
  {
    assert Canonical(RoParticles, "Qsy") by {
      HasSymbolAt(ParticleType.values, 2); HasSymbolAt(IsCliticFeature.values, 1);
    }
    ParticlesAccepts("Qsy");
  }

  lemma BadTagEntry4()
    ensures BadTagEntries[4] == ("Va--3-----y", "Va--3--y")
    ensures KeyRejected("Va--3-----y") && ReplacementAccepted("Va--3--y")
  {
    assert BadTagEntries[4] == ("Va--3-----y", "Va--3--y");
    VerbsRejects("Va--3-----y");
    Replacement4();
  }

  lemma Replacement4()
    ensures ReplacementAccepted("Va--3--y")
  {
    assert Canonical(RoVerbs, "Va--3--y") by {
      HasSymbolAt(VerbType.values, 1); HasSymbolAt(PersonFeature.values, 2); HasSymbolAt(IsCliticFeature.values, 1);
    }
    VerbsAccepts("Va--3--y");
  }

  lemma BadTagEntry5()
    ensures BadTagEntries[5] == ("Vmip1s----y", "Vmip1s-y")
    ensures KeyRejected("Vmip1s----y") && ReplacementAccepted("Vmip1s-y")
  {
    assert BadTagEntries[5] == ("Vmip1s----y", "Vmip1s-y");
    VerbsRejects("Vmip1s----y");
    Replacement5();
  }

  lemma Replacement5()
    ensures ReplacementAccepted("Vmip1s-y")
  {
    assert Canonical(RoVerbs, "Vmip1s-y") by {
      HasSymbolAt(VerbType.values, 0); HasSymbolAt(VerbMood.values, 0); HasSymbolAt(VerbTense.values, 0); HasSymbolAt(PersonFeature.values, 0); HasSymbolAt(NumberFeature.values, 0); HasSymbolAt(IsCliticFeature.values, 1);
    }
    VerbsAccepts("Vmip1s-y");
  }

  lemma BadTagEntry6()
    ensures BadTagEntries[6] == ("Va--3p----y", "Va--3p-y")
    ensures KeyRejected("Va--3p----y") && ReplacementAccepted("Va--3p-y")
  {
    assert BadTagEntries[6] == ("Va--3p----y", "Va--3p-y");
    VerbsRejects("Va--3p----y");
    Replacement6();
  }

  lemma Replacement6()
    ensures ReplacementAccepted("Va--3p-y")
  {
    assert Canonical(RoVerbs, "Va--3p-y") by {
      HasSymbolAt(VerbType.values, 1); HasSymbolAt(PersonFeature.values, 2); HasSymbolAt(NumberFeature.values, 1); HasSymbolAt(IsCliticFeature.values, 1);
    }
    VerbsAccepts("Va--3p-y");
  }

  lemma BadTagEntry7()
    ensures BadTagEntries[7] == ("Vaip3s----y", "Vaip3s-y")
    ensures KeyRejected("Vaip3s----y") && ReplacementAccepted("Vaip3s-y")
  {
    assert BadTagEntries[7] == ("Vaip3s----y", "Vaip3s-y");
    VerbsRejects("Vaip3s----y");
    Replacement7();
  }

  lemma Replacement7()
    ensures ReplacementAccepted("Vaip3s-y")
  {
    assert Canonical(RoVerbs, "Vaip3s-y") by {
      HasSymbolAt(VerbType.values, 1); HasSymbolAt(VerbMood.values, 0); HasSymbolAt(VerbTense.values, 0); HasSymbolAt(PersonFeature.values, 2); HasSymbolAt(NumberFeature.values, 0); HasSymbolAt(IsCliticFeature.values, 1);
    }
    VerbsAccepts("Vaip3s-y");
  }

  lemma BadTagEntry8()
    ensures BadTagEntries[8] == ("Vmii3p----y", "Vmii3p-y")
    ensures KeyRejected("Vmii3p----y") && ReplacementAccepted("Vmii3p-y")
  {
    assert BadTagEntries[8] == ("Vmii3p----y", "Vmii3p-y");
    VerbsRejects("Vmii3p----y");
    Replacement8();
  }

  lemma Replacement8()
    ensures ReplacementAccepted("Vmii3p-y")
  {
    assert Canonical(RoVerbs, "Vmii3p-y") by {
      HasSymbolAt(VerbType.values, 0); HasSymbolAt(VerbMood.values, 0); HasSymbolAt(VerbTense.values, 1); HasSymbolAt(PersonFeature.values, 2); HasSymbolAt(NumberFeature.values, 1); HasSymbolAt(IsCliticFeature.values, 1);
    }
    VerbsAccepts("Vmii3p-y");
  }

  lemma BadTagEntry9()
    ensures BadTagEntries[9] == ("Vmsp3-----y", "Vmsp3--y")
    ensures KeyRejected("Vmsp3-----y") && ReplacementAccepted("Vmsp3--y")
  {
    assert BadTagEntries[9] == ("Vmsp3-----y", "Vmsp3--y");
    VerbsRejects("Vmsp3-----y");
    Replacement9();
  }

  lemma Replacement9()
    ensures ReplacementAccepted("Vmsp3--y")
  {
    assert Canonical(RoVerbs, "Vmsp3--y") by {
      HasSymbolAt(VerbType.values, 0); HasSymbolAt(VerbMood.values, 1); HasSymbolAt(VerbTense.values, 0); HasSymbolAt(PersonFeature.values, 2); HasSymbolAt(IsCliticFeature.values, 1);
    }
    VerbsAccepts("Vmsp3--y");
  }

  lemma BadTagEntry10()
    ensures BadTagEntries[10] == ("Vmii1-----y", "Vmii1--y")
    ensures KeyRejected("Vmii1-----y") && ReplacementAccepted("Vmii1--y")
  {
    assert BadTagEntries[10] == ("Vmii1-----y", "Vmii1--y");
    VerbsRejects("Vmii1-----y");
    Replacement10();
  }

  lemma Replacement10()
    ensures ReplacementAccepted("Vmii1--y")
  {
    assert Canonical(RoVerbs, "Vmii1--y") by {
      HasSymbolAt(VerbType.values, 0); HasSymbolAt(VerbMood.values, 0); HasSymbolAt(VerbTense.values, 1); HasSymbolAt(PersonFeature.values, 0); HasSymbolAt(IsCliticFeature.values, 1);
    }
    VerbsAccepts("Vmii1--y");
  }

  lemma BadTagEntry11()
    ensures BadTagEntries[11] == ("Vmip3-----y", "Vmip3--y")
    ensures KeyRejected("Vmip3-----y") && ReplacementAccepted("Vmip3--y")
  {
    assert BadTagEntries[11] == ("Vmip3-----y", "Vmip3--y");
    VerbsRejects("Vmip3-----y");
    Replacement11();
  }

  lemma Replacement11()
    ensures ReplacementAccepted("Vmip3--y")
  {
    assert Canonical(RoVerbs, "Vmip3--y") by {
      HasSymbolAt(VerbType.values, 0); HasSymbolAt(VerbMood.values, 0); HasSymbolAt(VerbTense.values, 0); HasSymbolAt(PersonFeature.values, 2); HasSymbolAt(IsCliticFeature.values, 1);
    }
    VerbsAccepts("Vmip3--y");
  }

  lemma BadTagEntry12()
    ensures BadTagEntries[12] == ("Vmm-2s----y", "Vmm-2s-y")
    ensures KeyRejected("Vmm-2s----y") && ReplacementAccepted("Vmm-2s-y")
  {
    assert BadTagEntries[12] == ("Vmm-2s----y", "Vmm-2s-y");
    VerbsRejects("Vmm-2s----y");
    Replacement12();
  }

  lemma Replacement12()
    ensures ReplacementAccepted("Vmm-2s-y")
  {
    assert Canonical(RoVerbs, "Vmm-2s-y") by {
      HasSymbolAt(VerbType.values, 0); HasSymbolAt(VerbMood.values, 2); HasSymbolAt(PersonFeature.values, 1); HasSymbolAt(NumberFeature.values, 0); HasSymbolAt(IsCliticFeature.values, 1);
    }
    VerbsAccepts("Vmm-2s-y");
  }

  lemma BadTagEntry13()
    ensures BadTagEntries[13] == ("Vmip3s----y", "Vmip3s-y")
    ensures KeyRejected("Vmip3s----y") && ReplacementAccepted("Vmip3s-y")
  {
    assert BadTagEntries[13] == ("Vmip3s----y", "Vmip3s-y");
    VerbsRejects("Vmip3s----y");
    Replacement13();
  }

  lemma Replacement13()
    ensures ReplacementAccepted("Vmip3s-y")
  {
    assert Canonical(RoVerbs, "Vmip3s-y") by {
      HasSymbolAt(VerbType.values, 0); HasSymbolAt(VerbMood.values, 0); HasSymbolAt(VerbTense.values, 0); HasSymbolAt(PersonFeature.values, 2); HasSymbolAt(NumberFeature.values, 0); HasSymbolAt(IsCliticFeature.values, 1);
    }
    VerbsAccepts("Vmip3s-y");
  }

  lemma BadTagEntry14()
    ensures BadTagEntries[14] == ("Qn-y", "Qny")
    ensures KeyRejected("Qn-y") && ReplacementAccepted("Qny")
  {
    assert BadTagEntries[14] == ("Qn-y", "Qny");
    ParticlesRejects("Qn-y");
    Replacement14();
  }

  lemma Replacement14()
    ensures ReplacementAccepted("Qny")
  {
    assert Canonical(RoParticles, "Qny") by {
      HasSymbolAt(ParticleType.values, 1); HasSymbolAt(IsCliticFeature.values, 1);
    }
    ParticlesAccepts("Qny");
  }

  lemma BadTagEntry15()
    ensures BadTagEntries[15] == ("Ds3msrs-y", "Ds3msrsy")
    ensures KeyRejected("Ds3msrs-y") && ReplacementAccepted("Ds3msrsy")
  {
    assert BadTagEntries[15] == ("Ds3msrs-y", "Ds3msrsy");
    DeterminersRejects("Ds3msrs-y");
    Replacement15();
  }

  lemma Replacement15()
    ensures ReplacementAccepted("Ds3msrsy")
  {
    assert Canonical(RoDeterminers, "Ds3msrsy") by {
      HasSymbolAt(DeterminerType.values, 2); HasSymbolAt(PersonFeature.values, 2); HasSymbolAt(GenderFeature.values, 0); HasSymbolAt(NumberFeature.values, 0); HasSymbolAt(Case2Feature.values, 1); HasSymbolAt(OwnerNumber.values, 0); HasSymbolAt(IsCliticFeature.values, 1);
    }
    DeterminersAccepts("Ds3msrsy");
  }

  lemma BadTagEntry16()
    ensures BadTagEntries[16] == ("Vag-------y", "Vag----y")
    ensures KeyRejected("Vag-------y") && ReplacementAccepted("Vag----y")
  {
    assert BadTagEntries[16] == ("Vag-------y", "Vag----y");
    VerbsRejects("Vag-------y");
    Replacement16();
  }

  lemma Replacement16()
    ensures ReplacementAccepted("Vag----y")
  {
    assert Canonical(RoVerbs, "Vag----y") by {
      HasSymbolAt(VerbType.values, 1); HasSymbolAt(VerbMood.values, 5); HasSymbolAt(IsCliticFeature.values, 1);
    }
    VerbsAccepts("Vag----y");
  }

  lemma BadTagEntry17()
    ensures BadTagEntries[17] == ("Ncmrn", "Ncmprn")
    ensures KeyRejected("Ncmrn") && ReplacementAccepted("Ncmprn")
  {
    assert BadTagEntries[17] == ("Ncmrn", "Ncmprn");
    NounsRejects("Ncmrn");
    Replacement17();
  }

  lemma Replacement17()
    ensures ReplacementAccepted("Ncmprn")
  {
    assert Canonical(RoNouns, "Ncmprn") by {
      HasSymbolAt(NounType.values, 0); HasSymbolAt(GenderFeature.values, 0); HasSymbolAt(NumberFeature.values, 1); HasSymbolAt(Case2Feature.values, 1); HasSymbolAt(DefiniteFeature.values, 0);
    }
    NounsAccepts("Ncmprn");
  }

  lemma BadTagEntry18()
    ensures BadTagEntries[18] == ("Vmip2s----y", "Vmip2s-y")
    ensures KeyRejected("Vmip2s----y") && ReplacementAccepted("Vmip2s-y")
  {
    assert BadTagEntries[18] == ("Vmip2s----y", "Vmip2s-y");
    VerbsRejects("Vmip2s----y");
    Replacement18();
  }

  lemma Replacement18()
    ensures ReplacementAccepted("Vmip2s-y")
  {
    assert Canonical(RoVerbs, "Vmip2s-y") by {
      HasSymbolAt(VerbType.values, 0); HasSymbolAt(VerbMood.values, 0); HasSymbolAt(VerbTense.values, 0); HasSymbolAt(PersonFeature.values, 1); HasSymbolAt(NumberFeature.values, 0); HasSymbolAt(IsCliticFeature.values, 1);
    }
    VerbsAccepts("Vmip2s-y");
  }

  lemma BadTagEntry19()
    ensures BadTagEntries[19] == ("Di3-----y", "Di3----y")
    ensures KeyRejected("Di3-----y") && ReplacementAccepted("Di3----y")
  {
    assert BadTagEntries[19] == ("Di3-----y", "Di3----y");
    DeterminersRejects("Di3-----y");
    Replacement19();
  }

  lemma Replacement19()
    ensures ReplacementAccepted("Di3----y")
  {
    assert Canonical(RoDeterminers, "Di3----y") by {
      HasSymbolAt(DeterminerType.values, 1); HasSymbolAt(PersonFeature.values, 2); HasSymbolAt(IsCliticFeature.values, 1);
    }
    DeterminersAccepts("Di3----y");
  }

  lemma BadTagEntry20()
    ensures BadTagEntries[20] == ("Dd3fpr--y", "Dd3fpr-y")
    ensures KeyRejected("Dd3fpr--y") && ReplacementAccepted("Dd3fpr-y")
  {
    assert BadTagEntries[20] == ("Dd3fpr--y", "Dd3fpr-y");
    DeterminersRejects("Dd3fpr--y");
    Replacement20();
  }

  lemma Replacement20()
    ensures ReplacementAccepted("Dd3fpr-y")
  {
    assert Canonical(RoDeterminers, "Dd3fpr-y") by {
      HasSymbolAt(DeterminerType.values, 0); HasSymbolAt(PersonFeature.values, 2); HasSymbolAt(GenderFeature.values, 1); HasSymbolAt(NumberFeature.values, 1); HasSymbolAt(Case2Feature.values, 1); HasSymbolAt(IsCliticFeature.values, 1);
    }
    DeterminersAccepts("Dd3fpr-y");
  }

  lemma BadTagEntry21()
    ensures BadTagEntries[21] == ("Vaip3p----y", "Vaip3p-y")
    ensures KeyRejected("Vaip3p----y") && ReplacementAccepted("Vaip3p-y")
  {
    assert BadTagEntries[21] == ("Vaip3p----y", "Vaip3p-y");
    VerbsRejects("Vaip3p----y");
    Replacement21();
  }

  lemma Replacement21()
    ensures ReplacementAccepted("Vaip3p-y")
  {
    assert Canonical(RoVerbs, "Vaip3p-y") by {
      HasSymbolAt(VerbType.values, 1); HasSymbolAt(VerbMood.values, 0); HasSymbolAt(VerbTense.values, 0); HasSymbolAt(PersonFeature.values, 2); HasSymbolAt(NumberFeature.values, 1); HasSymbolAt(IsCliticFeature.values, 1);
    }
    VerbsAccepts("Vaip3p-y");
  }

  lemma BadTagEntry22()
    ensures BadTagEntries[22] == ("Va--2p----y", "Va--2p-y")
    ensures KeyRejected("Va--2p----y") && ReplacementAccepted("Va--2p-y")
  {
    assert BadTagEntries[22] == ("Va--2p----y", "Va--2p-y");
    VerbsRejects("Va--2p----y");
    Replacement22();
  }

  lemma Replacement22()
    ensures ReplacementAccepted("Va--2p-y")
  {
    assert Canonical(RoVerbs, "Va--2p-y") by {
      HasSymbolAt(VerbType.values, 1); HasSymbolAt(PersonFeature.values, 1); HasSymbolAt(NumberFeature.values, 1); HasSymbolAt(IsCliticFeature.values, 1);
    }
    VerbsAccepts("Va--2p-y");
  }

  lemma BadTagEntry23()
    ensures BadTagEntries[23] == ("Ds1msrs-y", "Ds1msrsy")
    ensures KeyRejected("Ds1msrs-y") && ReplacementAccepted("Ds1msrsy")
  {
    assert BadTagEntries[23] == ("Ds1msrs-y", "Ds1msrsy");
    DeterminersRejects("Ds1msrs-y");
    Replacement23();
  }

  lemma Replacement23()
    ensures ReplacementAccepted("Ds1msrsy")
  {
    assert Canonical(RoDeterminers, "Ds1msrsy") by {
      HasSymbolAt(DeterminerType.values, 2); HasSymbolAt(PersonFeature.values, 0); HasSymbolAt(GenderFeature.values, 0); HasSymbolAt(NumberFeature.values, 0); HasSymbolAt(Case2Feature.values, 1); HasSymbolAt(OwnerNumber.values, 0); HasSymbolAt(IsCliticFeature.values, 1);
    }
    DeterminersAccepts("Ds1msrsy");
  }

  lemma BadTagEntry24()
    ensures BadTagEntries[24] == ("Vmnp------y", "Vmnp---y")
    ensures KeyRejected("Vmnp------y") && ReplacementAccepted("Vmnp---y")
  {
    assert BadTagEntries[24] == ("Vmnp------y", "Vmnp---y");
    VerbsRejects("Vmnp------y");
    Replacement24();
  }

  lemma Replacement24()
    ensures ReplacementAccepted("Vmnp---y")
  {
    assert Canonical(RoVerbs, "Vmnp---y") by {
      HasSymbolAt(VerbType.values, 0); HasSymbolAt(VerbMood.values, 3); HasSymbolAt(VerbTense.values, 0); HasSymbolAt(IsCliticFeature.values, 1);
    }
    VerbsAccepts("Vmnp---y");
  }

  lemma BadTagEntry25()
    ensures BadTagEntries[25] == ("Va--2s----y", "Va--2s-y")
    ensures KeyRejected("Va--2s----y") && ReplacementAccepted("Va--2s-y")
  {
    assert BadTagEntries[25] == ("Va--2s----y", "Va--2s-y");
    VerbsRejects("Va--2s----y");
    Replacement25();
  }

  lemma Replacement25()
    ensures ReplacementAccepted("Va--2s-y")
  {
    assert Canonical(RoVerbs, "Va--2s-y") by {
      HasSymbolAt(VerbType.values, 1); HasSymbolAt(PersonFeature.values, 1); HasSymbolAt(NumberFeature.values, 0); HasSymbolAt(IsCliticFeature.values, 1);
    }
    VerbsAccepts("Va--2s-y");
  }

  lemma BadTagEntry26()
    ensures BadTagEntries[26] == ("Ds1fsrs-y", "Ds1fsrsy")
    ensures KeyRejected("Ds1fsrs-y") && ReplacementAccepted("Ds1fsrsy")
  {
    assert BadTagEntries[26] == ("Ds1fsrs-y", "Ds1fsrsy");
    DeterminersRejects("Ds1fsrs-y");
    Replacement26();
  }

  lemma Replacement26()
    ensures ReplacementAccepted("Ds1fsrsy")
  {
    assert Canonical(RoDeterminers, "Ds1fsrsy") by {
      HasSymbolAt(DeterminerType.values, 2); HasSymbolAt(PersonFeature.values, 0); HasSymbolAt(GenderFeature.values, 1); HasSymbolAt(NumberFeature.values, 0); HasSymbolAt(Case2Feature.values, 1); HasSymbolAt(OwnerNumber.values, 0); HasSymbolAt(IsCliticFeature.values, 1);
    }
    DeterminersAccepts("Ds1fsrsy");
  }

  lemma BadTagEntry27()
    ensures BadTagEntries[27] == ("Vmp--sm---y", "Vmp--smy")
    ensures KeyRejected("Vmp--sm---y") && ReplacementAccepted("Vmp--smy")
  {
    assert BadTagEntries[27] == ("Vmp--sm---y", "Vmp--smy");
    VerbsRejects("Vmp--sm---y");
    Replacement27();
  }

  lemma Replacement27()
    ensures ReplacementAccepted("Vmp--smy")
  {
    assert Canonical(RoVerbs, "Vmp--smy") by {
      HasSymbolAt(VerbType.values, 0); HasSymbolAt(VerbMood.values, 4); HasSymbolAt(NumberFeature.values, 0); HasSymbolAt(GenderFeature.values, 0); HasSymbolAt(IsCliticFeature.values, 1);
    }
    VerbsAccepts("Vmp--smy");
  }

  lemma BadTagEntry28()
    ensures BadTagEntries[28] == ("Di3-sr--y", "Di3-sr-y")
    ensures KeyRejected("Di3-sr--y") && ReplacementAccepted("Di3-sr-y")
  {
    assert BadTagEntries[28] == ("Di3-sr--y", "Di3-sr-y");
    DeterminersRejects("Di3-sr--y");
    Replacement28();
  }

  lemma Replacement28()
    ensures ReplacementAccepted("Di3-sr-y")
  {
    assert Canonical(RoDeterminers, "Di3-sr-y") by {
      HasSymbolAt(DeterminerType.values, 1); HasSymbolAt(PersonFeature.values, 2); HasSymbolAt(NumberFeature.values, 0); HasSymbolAt(Case2Feature.values, 1); HasSymbolAt(IsCliticFeature.values, 1);
    }
    DeterminersAccepts("Di3-sr-y");
  }

  lemma BadTagEntry29()
    ensures BadTagEntries[29] == ("Va--1s----y", "Va--1s-y")
    ensures KeyRejected("Va--1s----y") && ReplacementAccepted("Va--1s-y")
  {
    assert BadTagEntries[29] == ("Va--1s----y", "Va--1s-y");
    VerbsRejects("Va--1s----y");
    Replacement29();
  }

  lemma Replacement29()
    ensures ReplacementAccepted("Va--1s-y")
  {
    assert Canonical(RoVerbs, "Va--1s-y") by {
      HasSymbolAt(VerbType.values, 1); HasSymbolAt(PersonFeature.values, 0); HasSymbolAt(NumberFeature.values, 0); HasSymbolAt(IsCliticFeature.values, 1);
    }
    VerbsAccepts("Va--1s-y");
  }

  lemma BadTagEntry30()
    ensures BadTagEntries[30] == ("Vmip1p----y", "Vmip1p-y")
    ensures KeyRejected("Vmip1p----y") && ReplacementAccepted("Vmip1p-y")
  {
    assert BadTagEntries[30] == ("Vmip1p----y", "Vmip1p-y");
    VerbsRejects("Vmip1p----y");
    Replacement30();
  }

  lemma Replacement30()
    ensures ReplacementAccepted("Vmip1p-y")
  {
    assert Canonical(RoVerbs, "Vmip1p-y") by {
      HasSymbolAt(VerbType.values, 0); HasSymbolAt(VerbMood.values, 0); HasSymbolAt(VerbTense.values, 0); HasSymbolAt(PersonFeature.values, 0); HasSymbolAt(NumberFeature.values, 1); HasSymbolAt(IsCliticFeature.values, 1);
    }
    VerbsAccepts("Vmip1p-y");
  }

  lemma BadTagEntry31()
    ensures BadTagEntries[31] == ("Va--1-----y", "Va--1--y")
    ensures KeyRejected("Va--1-----y") && ReplacementAccepted("Va--1--y")
  {
    assert BadTagEntries[31] == ("Va--1-----y", "Va--1--y");
    VerbsRejects("Va--1-----y");
    Replacement31();
  }

  lemma Replacement31()
    ensures ReplacementAccepted("Va--1--y")
  {
    assert Canonical(RoVerbs, "Va--1--y") by {
      HasSymbolAt(VerbType.values, 1); HasSymbolAt(PersonFeature.values, 0); HasSymbolAt(IsCliticFeature.values, 1);
    }
    VerbsAccepts("Va--1--y");
  }

  lemma BadTagEntry32()
    ensures BadTagEntries[32] == ("Vmis3s----y", "Vmis3s-y")
    ensures KeyRejected("Vmis3s----y") && ReplacementAccepted("Vmis3s-y")
  {
    assert BadTagEntries[32] == ("Vmis3s----y", "Vmis3s-y");
    VerbsRejects("Vmis3s----y");
    Replacement32();
  }

  lemma Replacement32()
    ensures ReplacementAccepted("Vmis3s-y")
  {
    assert Canonical(RoVerbs, "Vmis3s-y") by {
      HasSymbolAt(VerbType.values, 0); HasSymbolAt(VerbMood.values, 0); HasSymbolAt(VerbTense.values, 2); HasSymbolAt(PersonFeature.values, 2); HasSymbolAt(NumberFeature.values, 0); HasSymbolAt(IsCliticFeature.values, 1);
    }
    VerbsAccepts("Vmis3s-y");
  }

  lemma BadTagEntry33()
    ensures BadTagEntries[33] == ("Vmil3s----y", "Vmil3s-y")
    ensures KeyRejected("Vmil3s----y") && ReplacementAccepted("Vmil3s-y")
  {
    assert BadTagEntries[33] == ("Vmil3s----y", "Vmil3s-y");
    VerbsRejects("Vmil3s----y");
    Replacement33();
  }

  lemma Replacement33()
    ensures ReplacementAccepted("Vmil3s-y")
  {
    assert Canonical(RoVerbs, "Vmil3s-y") by {
      HasSymbolAt(VerbType.values, 0); HasSymbolAt(VerbMood.values, 0); HasSymbolAt(VerbTense.values, 3); HasSymbolAt(PersonFeature.values, 2); HasSymbolAt(NumberFeature.values, 0); HasSymbolAt(IsCliticFeature.values, 1);
    }
    VerbsAccepts("Vmil3s-y");
  }

  lemma BadTagEntry34()
    ensures BadTagEntries[34] == ("Vmis3p----y", "Vmis3p-y")
    ensures KeyRejected("Vmis3p----y") && ReplacementAccepted("Vmis3p-y")
  {
    assert BadTagEntries[34] == ("Vmis3p----y", "Vmis3p-y");
    VerbsRejects("Vmis3p----y");
    Replacement34();
  }

  lemma Replacement34()
    ensures ReplacementAccepted("Vmis3p-y")
  {
    assert Canonical(RoVerbs, "Vmis3p-y") by {
      HasSymbolAt(VerbType.values, 0); HasSymbolAt(VerbMood.values, 0); HasSymbolAt(VerbTense.values, 2); HasSymbolAt(PersonFeature.values, 2); HasSymbolAt(NumberFeature.values, 1); HasSymbolAt(IsCliticFeature.values, 1);
    }
    VerbsAccepts("Vmis3p-y");
  }

  lemma BadTagEntry35()
    ensures BadTagEntries[35] == ("Vmil3p----y", "Vmil3p-y")
    ensures KeyRejected("Vmil3p----y") && ReplacementAccepted("Vmil3p-y")
  {
    assert BadTagEntries[35] == ("Vmil3p----y", "Vmil3p-y");
    VerbsRejects("Vmil3p----y");
    Replacement35();
  }

  lemma Replacement35()
    ensures ReplacementAccepted("Vmil3p-y")
  {
    assert Canonical(RoVerbs, "Vmil3p-y") by {
      HasSymbolAt(VerbType.values, 0); HasSymbolAt(VerbMood.values, 0); HasSymbolAt(VerbTense.values, 3); HasSymbolAt(PersonFeature.values, 2); HasSymbolAt(NumberFeature.values, 1); HasSymbolAt(IsCliticFeature.values, 1);
    }
    VerbsAccepts("Vmil3p-y");
  }

  lemma BadTagEntry36()
    ensures BadTagEntries[36] == ("Vmii3s----y", "Vmii3s-y")
    ensures KeyRejected("Vmii3s----y") && ReplacementAccepted("Vmii3s-y")
  {
    assert BadTagEntries[36] == ("Vmii3s----y", "Vmii3s-y");
    VerbsRejects("Vmii3s----y");
    Replacement36();
  }

  lemma Replacement36()
    ensures ReplacementAccepted("Vmii3s-y")
  {
    assert Canonical(RoVerbs, "Vmii3s-y") by {
      HasSymbolAt(VerbType.values, 0); HasSymbolAt(VerbMood.values, 0); HasSymbolAt(VerbTense.values, 1); HasSymbolAt(PersonFeature.values, 2); HasSymbolAt(NumberFeature.values, 0); HasSymbolAt(IsCliticFeature.values, 1);
    }
    VerbsAccepts("Vmii3s-y");
  }

  /** A table entry whose tag would raise and whose replacement, with the same category letter, decodes. */
  predicate GoodRepair(e: (string, string)) {
    KeyRejected(e.0) && ReplacementAccepted(e.1) && |e.0| > 0 && |e.1| > 0 && e.0[0] == e.1[0]
  }

  /** Entries 0 to 8 of the table are good repairs. */
  lemma BadTagEntries0To8()
    ensures forall i :: 0 <= i < 9 ==> GoodRepair(BadTagEntries[i])
  {
    forall i | 0 <= i < 9 ensures GoodRepair(BadTagEntries[i]) {
      if i == 0 { BadTagEntry0(); }
      else if i == 1 { BadTagEntry1(); }
      else if i == 2 { BadTagEntry2(); }
      else if i == 3 { BadTagEntry3(); }
      else if i == 4 { BadTagEntry4(); }
      else if i == 5 { BadTagEntry5(); }
      else if i == 6 { BadTagEntry6(); }
      else if i == 7 { BadTagEntry7(); }
      else { assert i == 8; BadTagEntry8(); }
    }
  }

  /** Entries 9 to 17 of the table are good repairs. */
  lemma BadTagEntries9To17()
    ensures forall i :: 9 <= i < 18 ==> GoodRepair(BadTagEntries[i])
  {
    forall i | 9 <= i < 18 ensures GoodRepair(BadTagEntries[i]) {
      if i == 9 { BadTagEntry9(); }
      else if i == 10 { BadTagEntry10(); }
      else if i == 11 { BadTagEntry11(); }
      else if i == 12 { BadTagEntry12(); }
      else if i == 13 { BadTagEntry13(); }
      else if i == 14 { BadTagEntry14(); }
      else if i == 15 { BadTagEntry15(); }
      else if i == 16 { BadTagEntry16(); }
      else { assert i == 17; BadTagEntry17(); }
    }
  }

  /** Entries 18 to 27 of the table are good repairs. */
  lemma BadTagEntries18To27()
    ensures forall i :: 18 <= i < 28 ==> GoodRepair(BadTagEntries[i])
  {
    forall i | 18 <= i < 28 ensures GoodRepair(BadTagEntries[i]) {
      if i == 18 { BadTagEntry18(); }
      else if i == 19 { BadTagEntry19(); }
      else if i == 20 { BadTagEntry20(); }
      else if i == 21 { BadTagEntry21(); }
      else if i == 22 { BadTagEntry22(); }
      else if i == 23 { BadTagEntry23(); }
      else if i == 24 { BadTagEntry24(); }
      else if i == 25 { BadTagEntry25(); }
      else if i == 26 { BadTagEntry26(); }
      else { assert i == 27; BadTagEntry27(); }
    }
  }

  /** Entries 28 to 36 of the table are good repairs. */
  lemma BadTagEntries28To36()
    ensures forall i :: 28 <= i < 37 ==> GoodRepair(BadTagEntries[i])
  {
    forall i | 28 <= i < 37 ensures GoodRepair(BadTagEntries[i]) {
      if i == 28 { BadTagEntry28(); }
      else if i == 29 { BadTagEntry29(); }
      else if i == 30 { BadTagEntry30(); }
      else if i == 31 { BadTagEntry31(); }
      else if i == 32 { BadTagEntry32(); }
      else if i == 33 { BadTagEntry33(); }
      else if i == 34 { BadTagEntry34(); }
      else if i == 35 { BadTagEntry35(); }
      else { assert i == 36; BadTagEntry36(); }
    }
  }

  /** Every replacement of the table decodes, every tag it replaces would raise, and the category letter is kept. */
  lemma BadTagEntriesRepair()
    ensures forall i :: 0 <= i < |BadTagEntries| ==> GoodRepair(BadTagEntries[i])
  {
    BadTagEntries0To8();
    BadTagEntries9To17();
    BadTagEntries18To27();
    BadTagEntries28To36();
  }

  /**
   * With a repair table, a listed tag whose replacement keeps the category letter and decodes is
   * decoded as that replacement. (When the replacement raises, the message also names the original.)
   */
  lemma RepairWith(xpos: string, bad: map<string, string>)
    requires xpos in bad && GoodRepair((xpos, bad[xpos]))
    ensures KeyRejected(xpos)
    ensures DictFeaturesFromTag(RoMorphoDictionary(), xpos, bad) == DictFeaturesFromTag(RoMorphoDictionary(), bad[xpos], map[])
    ensures DictFeaturesFromTag(RoMorphoDictionary(), xpos, bad).Ok?
  {
    var r := bad[xpos];
    assert [xpos[0]] == [r[0]];
    assert Repaired(xpos, bad) == r == Repaired(r, map[]);
  }

  /**
   * Decoding through the dictionary with the bad-tag table: a listed tag raises on its own, yet
   * decodes once the table replaces it, to what its replacement decodes to.
   */
  lemma BadTagDictRepairs(xpos: string)
    requires xpos in BadTagDict
    ensures KeyRejected(xpos)
    ensures DictFeaturesFromTag(RoMorphoDictionary(), xpos, BadTagDict) ==
      DictFeaturesFromTag(RoMorphoDictionary(), BadTagDict[xpos], map[])
    ensures DictFeaturesFromTag(RoMorphoDictionary(), xpos, BadTagDict).Ok?
  {
    BadTagEntriesRepair();
    var j :| 0 <= j < |BadTagEntries| && BadTagEntries[j] == (xpos, BadTagDict[xpos]);
    assert GoodRepair(BadTagEntries[j]);
    RepairWith(xpos, BadTagDict);
  }
}
