/** Which clauses of merged insertions survive. */
module FixMerging {
  import opened Wrappers
  import opened FixClauses

  // ---- what the merged text holds ----------------------------------------------------------

  predicate Contains(text: string, part: string) {
    exists i | 0 <= i <= |text| :: part <= text[i..]
  }

  lemma {:induction false} ContainsMiddle(front: string, part: string, rest: string)
    ensures Contains(front + part + rest, part)
  {
    var text, i := front + part + rest, |front|;
    assert text[i..] == part + rest && part <= part + rest;
  }

  lemma {:induction false} JoinedHoldsEffect(leading: string, effect: string, capability: Option<string>,
                                             trailing: string)
    ensures Contains(leading + Joined(Some(effect), capability) + trailing, effect)
  {
    hide Contains;
    var rest := (if capability.Some? then " " + capability.value else "") + trailing;
    ContainsMiddle(leading, effect, rest);
    assert leading + effect + rest == leading + Joined(Some(effect), capability) + trailing;
  }

  lemma {:induction false} JoinedHoldsCapability(leading: string, effect: Option<string>, capability: string,
                                                 trailing: string)
    ensures Contains(leading + Joined(effect, Some(capability)) + trailing, capability)
  {
    hide Contains;
    var front := leading + if effect.Some? then effect.value + " " else "";
    ContainsMiddle(front, capability, trailing);
    assert front + capability + trailing == leading + Joined(effect, Some(capability)) + trailing;
  }

  /** The merged text holds the chosen effect clause and the chosen capability clause, in
      that order and between at most a space on either side. */
  lemma {:induction false} MergeHoldsBoth(existing: string, candidate: string)
    requires Merge(existing, candidate).Some?
    ensures var effect := Chosen(existing, candidate, "effects");
            var capability := Chosen(existing, candidate, "capabilities");
            var merged := Merge(existing, candidate).value;
            && merged == LeadingOf(existing, candidate) + Joined(effect, capability) + TrailingOf(existing, candidate)
            && (effect.Some? ==> Contains(merged, effect.value))
            && (capability.Some? ==> Contains(merged, capability.value))
  {
    hide Chosen, Contains, Joined, LeadingOf, TrailingOf;
    var effect, capability := Chosen(existing, candidate, "effects"), Chosen(existing, candidate, "capabilities");
    var leading, trailing := LeadingOf(existing, candidate), TrailingOf(existing, candidate);
    if effect.Some? {
      JoinedHoldsEffect(leading, effect.value, capability, trailing);
    }
    if capability.Some? {
      JoinedHoldsCapability(leading, effect, capability.value, trailing);
    }
  }

  // ---- what is read back from it -------------------------------------------------------------

  /** A later merge reads the chosen effect clause back from the merged text. */
  lemma {:induction false} MergeKeepsEffect(existing: string, candidate: string)
    requires Merge(existing, candidate).Some? && Chosen(existing, candidate, "effects").Some?
    ensures ExtractNamedClause(Merge(existing, candidate).value, "effects") == Chosen(existing, candidate, "effects")
  {
    var key := "effects";
    assert key[0] == 'e';
    var text := ChosenFrom(existing, candidate, key);
    hide ExtractNamedClause, Chosen;
    var effect, capability := Chosen(existing, candidate, key), Chosen(existing, candidate, "capabilities");
    var leading, trailing := LeadingOf(existing, candidate), TrailingOf(existing, candidate);
    EffectFirst(text, key, effect, capability, leading, trailing);
  }

  lemma {:induction false} EffectFirst(text: string, key: string, effect: Option<string>, capability: Option<string>,
                                       leading: string, trailing: string)
    requires key != "" && key[0] != ' ' && (leading == "" || leading == " ")
    requires effect.Some? && ExtractNamedClause(text, key) == effect
    ensures ExtractNamedClause(leading + Joined(effect, capability) + trailing, key) == effect
  {
    hide ExtractNamedClause;
    var rest := (if capability.Some? then " " + capability.value else "") + trailing;
    assert leading + Joined(effect, capability) + trailing == leading + effect.value + rest;
    assert leading + effect.value + rest == leading + (effect.value + rest);
    forall p | 0 <= p < |leading| ensures !(key <= (leading + effect.value + rest)[p..]) {
      NoKeyInSpace(key, leading, effect.value + rest, p);
    }
    ClauseReadsBack(text, key, leading, rest);
  }

  /** The clause in front does not hide the one introduced by `key`: it does not contain
      that word, or what follows the word in it is the same clause. */
  predicate LeavesVisible(key: string, front: Option<string>, clause: Option<string>) {
    front.None? || Find(front.value, key).None? || ExtractNamedClause(front.value, key) == clause
  }

  lemma {:induction false} MergeShape(existing: string, candidate: string)
    requires Merge(existing, candidate).Some?
    ensures var effect := Chosen(existing, candidate, "effects");
            var capability := Chosen(existing, candidate, "capabilities");
            var leading := LeadingOf(existing, candidate);
            && Merge(existing, candidate).value
                 == leading + Joined(effect, capability) + TrailingOf(existing, candidate)
            && (leading == "" || leading == " ")
  {
    hide Chosen, Joined;
  }

  lemma {:induction false} CapabilityWord()
    ensures var key := "capabilities"; key != "" && key[0] != ' ' && '}' !in key
  {
    var key := "capabilities";
    assert key[0] == 'c';
  }

  /** The capability clause is read back exactly when the effect clause in front of it does
      not hide it. */
  lemma {:induction false} MergeKeepsCapability(existing: string, candidate: string)
    requires Merge(existing, candidate).Some? && Chosen(existing, candidate, "capabilities").Some?
    ensures var capability := Chosen(existing, candidate, "capabilities");
            ExtractNamedClause(Merge(existing, candidate).value, "capabilities") == capability <==>
              LeavesVisible("capabilities", Chosen(existing, candidate, "effects"), capability)
  {
    hide ExtractNamedClause, Chosen, LeavesVisible, Joined, Merge, LeadingOf, TrailingOf;
    MergeShape(existing, candidate);
    CapabilityWord();
    var key := "capabilities";
    var text := ChosenFrom(existing, candidate, key);
    var effect, capability := Chosen(existing, candidate, "effects"), Chosen(existing, candidate, key);
    if effect.Some? {
      ChosenEndsInBrace(existing, candidate, "effects");
    }
    SecondClause(text, key, effect, capability, LeadingOf(existing, candidate), TrailingOf(existing, candidate));
  }

  lemma {:induction false} SecondClause(text: string, key: string, effect: Option<string>, capability: Option<string>,
                                        leading: string, trailing: string)
    requires key != "" && key[0] != ' ' && '}' !in key && (leading == "" || leading == " ")
    requires capability.Some? && ExtractNamedClause(text, key) == capability
    requires effect.Some? ==> effect.value != "" && effect.value[|effect.value| - 1] == '}'
    ensures ExtractNamedClause(leading + Joined(effect, capability) + trailing, key) == capability <==>
              LeavesVisible(key, effect, capability)
  {
    hide ExtractNamedClause, Find, Joined;
    if effect.Some? && Find(effect.value, key).Some? {
      HiddenOrNot(key, effect.value, capability.value, leading, trailing);
    } else {
      CapabilityLast(text, key, effect, capability, leading, trailing);
    }
  }

  lemma {:induction false} HiddenOrNot(key: string, effect: string, capability: string, leading: string,
                                       trailing: string)
    requires key != "" && key[0] != ' ' && '}' !in key && (leading == "" || leading == " ")
    requires effect != "" && effect[|effect| - 1] == '}' && Find(effect, key).Some?
    ensures ExtractNamedClause(leading + Joined(Some(effect), Some(capability)) + trailing, key)
              == ExtractNamedClause(effect, key)
  {
    hide ExtractNamedClause, Find;
    var rest := " " + capability + trailing;
    assert leading + Joined(Some(effect), Some(capability)) + trailing == leading + effect + rest;
    WordInEffect(key, leading, effect, rest);
  }

  lemma {:induction false} CapabilityLast(text: string, key: string, effect: Option<string>, capability: Option<string>,
                                          leading: string, trailing: string)
    requires key != "" && key[0] != ' ' && '}' !in key && (leading == "" || leading == " ")
    requires capability.Some? && ExtractNamedClause(text, key) == capability
    requires effect.Some? ==> effect.value != "" && effect.value[|effect.value| - 1] == '}'
    requires effect.Some? ==> Find(effect.value, key).None?
    ensures ExtractNamedClause(leading + Joined(effect, capability) + trailing, key) == capability
  {
    hide ExtractNamedClause, Find;
    var front := if effect.Some? then leading + effect.value + " " else leading;
    var rest := capability.value + trailing;
    assert leading + Joined(effect, capability) + trailing == front + capability.value + trailing;
    assert front + capability.value + trailing == front + rest;
    forall p | 0 <= p < |front| ensures !(key <= (front + capability.value + trailing)[p..]) {
      if effect.Some? {
        NoEarlierKey(key, leading, effect.value, rest, p);
      } else {
        NoKeyInSpace(key, leading, rest, p);
      }
    }
    ClauseReadsBack(text, key, front, trailing);
  }

  // ---- merging one insertion after another -----------------------------------------------------

  /** An insertion taken into the accepted text: duplicates are skipped, and a text without
      any clause is turned down as a conflict. */
  function Absorb(text: string, next: string): string {
    if text == next || Merge(text, next).None? then text else Merge(text, next).value
  }

  /** The accepted text after all insertions at one place, in their order. */
  function FoldTexts(texts: seq<string>): string
    requires texts != []
  {
    if |texts| == 1 then texts[0] else Absorb(FoldTexts(texts[..|texts| - 1]), texts[|texts| - 1])
  }

  /** The last clause introduced by the word. */
  function LastClause(texts: seq<string>, keyword: string): Option<string> {
    if texts == [] then None
    else OrElse(ExtractNamedClause(texts[|texts| - 1], keyword), LastClause(texts[..|texts| - 1], keyword))
  }

  lemma {:induction false} AbsorbReadsEffect(text: string, next: string)
    requires OrElse(ExtractNamedClause(next, "effects"), ExtractNamedClause(text, "effects")).Some?
    ensures ExtractNamedClause(Absorb(text, next), "effects") == Chosen(text, next, "effects")
  {
    hide ExtractNamedClause, Joined, LeadingOf, TrailingOf;
    if text != next {
      MergeKeepsEffect(text, next);
    }
  }

  /** The last effect clause is in force in the end. */
  lemma {:induction false} FoldReadsLastEffect(texts: seq<string>)
    requires texts != [] && LastClause(texts, "effects").Some?
    ensures ExtractNamedClause(FoldTexts(texts), "effects") == LastClause(texts, "effects")
  {
    hide ExtractNamedClause, Absorb;
    var front, last := texts[..|texts| - 1], texts[|texts| - 1];
    if |texts| > 1 {
      if ExtractNamedClause(last, "effects").None? {
        FoldReadsLastEffect(front);
      }
      AbsorbReadsEffect(FoldTexts(front), last);
    } else {
      assert LastClause(front, "effects") == None;
    }
  }

  /** At position `j` the insertion is merged, and `clause` is not hidden by the effect clause
      written in front of it. */
  predicate Unhidden(texts: seq<string>, j: nat, clause: string)
    requires 0 < j < |texts|
  {
    var text := FoldTexts(texts[..j]);
    text == texts[j] || Merge(text, texts[j]).None? ||
        LeavesVisible("capabilities", Chosen(text, texts[j], "effects"), Some(clause))
  }

  predicate ReadAt(texts: seq<string>, j: nat, clause: string)
    requires j < |texts|
  {
    ExtractNamedClause(FoldTexts(texts[..j + 1]), "capabilities") == Some(clause)
  }

  /** One insertion: what was to be kept is read back exactly when it is not hidden. */
  lemma {:induction false} ReadAtStep(texts: seq<string>, j: nat, clause: string)
    requires 0 < j < |texts|
    requires Chosen(FoldTexts(texts[..j]), texts[j], "capabilities") == Some(clause)
    ensures ReadAt(texts, j, clause) <==> Unhidden(texts, j, clause)
  {
    hide ExtractNamedClause, Joined, LeavesVisible, LeadingOf, TrailingOf;
    var text := FoldTexts(texts[..j]);
    assert texts[..j + 1][..j] == texts[..j];
    assert FoldTexts(texts[..j + 1]) == Absorb(text, texts[j]);
    if text != texts[j] {
      MergeKeepsCapability(text, texts[j]);
    }
  }

  /** From the last capability clause on, the text reads as that clause throughout exactly when
      no merge on the way puts an effect clause in front of it that hides it. */
  lemma {:induction false} CapabilityKeptExactly(texts: seq<string>, k: nat, clause: string)
    requires k < |texts| && ExtractNamedClause(texts[k], "capabilities") == Some(clause)
    requires forall j | k < j < |texts| :: ExtractNamedClause(texts[j], "capabilities") == None
    ensures (forall j | k <= j < |texts| :: ReadAt(texts, j, clause))
              <==> (forall j | k <= j < |texts| && j > 0 :: Unhidden(texts, j, clause))
  {
    hide ExtractNamedClause, Unhidden, ReadAt;
    if forall j | k <= j < |texts| :: ReadAt(texts, j, clause) {
      forall j | k <= j < |texts| && j > 0 ensures Unhidden(texts, j, clause) {
        assert j > k ==> ReadAt(texts, j - 1, clause);
        ChosenAt(texts, k, j, clause);
        ReadAtStep(texts, j, clause);
      }
    }
    if forall j | k <= j < |texts| && j > 0 :: Unhidden(texts, j, clause) {
      for j := k to |texts|
        invariant forall i | k <= i < j :: ReadAt(texts, i, clause)
      {
        if j == 0 {
          FirstRead(texts, clause);
        } else {
          ChosenAt(texts, k, j, clause);
          ReadAtStep(texts, j, clause);
        }
      }
    }
  }

  lemma {:induction false} FirstRead(texts: seq<string>, clause: string)
    requires texts != [] && ExtractNamedClause(texts[0], "capabilities") == Some(clause)
    ensures ReadAt(texts, 0, clause)
  {
    hide ExtractNamedClause;
    assert texts[..1] == [texts[0]];
  }

  lemma {:induction false} ChosenAt(texts: seq<string>, k: nat, j: nat, clause: string)
    requires k <= j < |texts| && j > 0 && ExtractNamedClause(texts[k], "capabilities") == Some(clause)
    requires j > k ==> ExtractNamedClause(texts[j], "capabilities") == None && ReadAt(texts, j - 1, clause)
    ensures Chosen(FoldTexts(texts[..j]), texts[j], "capabilities") == Some(clause)
  {
    hide ExtractNamedClause, FoldTexts;
  }

  // ---- a clause that is forgotten ---------------------------------------------------------------

  const HIDING_EFFECT := "effects" + "{" + "capabilities" + "}"
  const A_CAPABILITY := "capabilities" + "{" + "a" + "}"

  lemma {:induction false} WordWithoutClause()
    ensures Find(HIDING_EFFECT, "capabilities") == Some(8) && ExtractNamedClause(HIDING_EFFECT, "capabilities") == None
  {
    var e, key := HIDING_EFFECT, "capabilities";
    assert e[8..][..12] == key && e[20] == '}';
    forall p | 0 <= p < 8 ensures !(key <= e[p..]) {
      assert e[p..][0] == e[p] && e[p..][1] == e[p + 1] && key[0] == 'c' && key[1] == 'a';
    }
    FindIsFirst(e, key, 8);
    assert SkipSpaces(e, 20) == 20;
  }

  lemma {:induction false} HidingClauses()
    ensures ExtractNamedClause(A_CAPABILITY, "effects") == None
    ensures ExtractNamedClause(A_CAPABILITY, "capabilities") == Some(A_CAPABILITY)
    ensures ExtractNamedClause(HIDING_EFFECT, "effects") == Some(HIDING_EFFECT)
    ensures ExtractNamedClause(HIDING_EFFECT, "capabilities") == None
  {
    hide Find, ClauseAt;
    BareClause("effects", "capabilities");
    BareClause("capabilities", "a");
    WordWithoutClause();
    FindNeeds(A_CAPABILITY, "effects", 'f');
  }

  lemma {:induction false} HidingSpaced()
    ensures ExtractNamedClause(HIDING_EFFECT + " ", "effects") == Some(HIDING_EFFECT)
    ensures ExtractNamedClause(HIDING_EFFECT + " ", "capabilities") == None
    ensures ExtractNamedClause(HIDING_EFFECT + " " + A_CAPABILITY, "capabilities") == None
  {
    hide ExtractNamedClause, Find;
    HidingClauses();
    WordWithoutClause();
    var key := "capabilities";
    assert HIDING_EFFECT[20] == '}';
    CapabilityWord();
    EffectFirst(HIDING_EFFECT, "effects", Some(HIDING_EFFECT), None, "", " ");
    assert "" + Joined(Some(HIDING_EFFECT), None) + " " == HIDING_EFFECT + " ";
    HiddenOrNot(key, HIDING_EFFECT, "", "", "");
    assert "" + Joined(Some(HIDING_EFFECT), Some("")) + "" == HIDING_EFFECT + " ";
    HiddenOrNot(key, HIDING_EFFECT, A_CAPABILITY, "", "");
    assert "" + Joined(Some(HIDING_EFFECT), Some(A_CAPABILITY)) + "" == HIDING_EFFECT + " " + A_CAPABILITY;
  }

  /** An effect whose name is the word hides the clause behind it, and the next merge then
      forgets that clause. The compiler suggests no such effect. */
  lemma {:induction false} ClauseForgotten()
    ensures var both := HIDING_EFFECT + " " + A_CAPABILITY;
            && Merge(A_CAPABILITY, HIDING_EFFECT) == Some(both)
            && Merge(both, HIDING_EFFECT + " ") == Some(HIDING_EFFECT + " ")
    ensures var texts := [A_CAPABILITY, HIDING_EFFECT, HIDING_EFFECT + " "];
            && FoldTexts(texts[..2]) == HIDING_EFFECT + " " + A_CAPABILITY
            && FoldTexts(texts) == HIDING_EFFECT + " "
  {
    hide ExtractNamedClause;
    HidingClauses();
    HidingSpaced();
    var texts := [A_CAPABILITY, HIDING_EFFECT, HIDING_EFFECT + " "];
    var both := HIDING_EFFECT + " " + A_CAPABILITY;
    assert A_CAPABILITY[0] == 'c' && A_CAPABILITY[|A_CAPABILITY| - 1] == '}';
    assert HIDING_EFFECT[0] == 'e' && HIDING_EFFECT[|HIDING_EFFECT| - 1] == '}';
    assert Merge(A_CAPABILITY, HIDING_EFFECT) == Some("" + both + "");
    assert texts[..2][..1] == [A_CAPABILITY] && FoldTexts([A_CAPABILITY]) == A_CAPABILITY;
    assert FoldTexts(texts[..2]) == both;
    assert Merge(both, HIDING_EFFECT + " ") == Some("" + HIDING_EFFECT + " ");
    assert "" + HIDING_EFFECT + " " == HIDING_EFFECT + " ";
    assert |both| != |HIDING_EFFECT + " "|;
  }
}
