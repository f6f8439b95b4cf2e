/** The insertions the compiler suggests, and what merging them asks for. */
module FixRequests {
  import opened Wrappers
  import opened FixClauses
  import opened FixMerging
  import Scanner

  /** An insertion as the type checker builds it: one clause of names, or after merging both,
      and a space before or behind. An empty list is a clause that is not there. */
  datatype Request = Request(effects: seq<string>, capabilities: seq<string>, leading: bool, trailing: bool)

  function JoinNames(names: seq<string>): string {
    if names == [] then ""
    else if |names| == 1 then names[0]
    else names[0] + ", " + JoinNames(names[1..])
  }

  function ClauseText(keyword: string, names: seq<string>): string {
    keyword + " { " + JoinNames(names) + " }"
  }

  function ClauseOf(keyword: string, names: seq<string>): Option<string> {
    if names == [] then None else Some(ClauseText(keyword, names))
  }

  function Space(present: bool): string {
    if present then " " else ""
  }

  function Written(r: Request): string {
    Space(r.leading) + Joined(ClauseOf("effects", r.effects), ClauseOf("capabilities", r.capabilities))
      + Space(r.trailing)
  }

  /** A name that contains neither of the two words. */
  predicate PlainName(x: string) {
    && (forall k | 0 <= k < |x| :: Scanner.IsIdentChar(x[k]))
    && Find(x, "effects").None? && Find(x, "capabilities").None?
  }

  predicate Made(r: Request) {
    && (r.effects != [] || r.capabilities != [])
    && (forall x <- r.effects :: PlainName(x)) && (forall x <- r.capabilities :: PlainName(x))
  }

  /** Each list of the later request if it has one, else that of the earlier. */
  function Combine(a: Request, b: Request): Request {
    Request(if b.effects != [] then b.effects else a.effects,
            if b.capabilities != [] then b.capabilities else a.capabilities,
            a.leading || b.leading, a.trailing || b.trailing)
  }

  // ---- where a word does not occur -----------------------------------------------------------

  /** A word does not occur across a character it does not have. */
  lemma {:induction false} OnOneSide(a: string, c: char, b: string, key: string, p: nat)
    requires key != "" && c !in key && p <= |a| + 1 + |b| && key <= (a + [c] + b)[p..]
    ensures (p <= |a| && key <= a[p..]) || (p > |a| && key <= b[p - |a| - 1..])
  {
    var whole := a + [c] + b;
    if p > |a| {
      assert whole[p..] == b[p - |a| - 1..];
    } else if p + |key| > |a| {
      LetterAt(whole, p, key, |a| - p);
      assert false;
    } else {
      assert forall k | 0 <= k < |key| :: whole[p..][k] == key[k] && a[p..][k] == whole[p + k];
    }
  }

  lemma {:induction false} LetterAt(text: string, p: nat, key: string, k: nat)
    requires p <= |text| && key <= text[p..] && k < |key|
    ensures text[p + k] == key[k] && key[k] in key
  {
    assert text[p..][k] == text[p + k];
  }

  lemma {:induction false} NotAcross(a: string, c: char, b: string, key: string)
    requires key != "" && Find(a, key).None? && Find(b, key).None? && c !in key
    ensures Find(a + [c] + b, key).None?
  {
    hide Find;
    var whole := a + [c] + b;
    if Find(whole, key).Some? {
      FindOccurs(whole, key);
      var p := Find(whole, key).value;
      OnOneSide(a, c, b, key, p);
      if p <= |a| {
        FindMisses(a, key, p);
      } else {
        FindMisses(b, key, p - |a| - 1);
      }
    }
  }

  lemma {:induction false} NoneInEmpty(key: string)
    requires key != ""
    ensures Find("", key).None?
  {
  }

  predicate Word(key: string) {
    key != "" && ' ' !in key && ',' !in key && '{' !in key && '}' !in key
  }

  lemma {:induction false} KeywordLetters()
    ensures Word("effects") && Word("capabilities")
    ensures 'b' in "capabilities" && 'b' !in "effects" && 'f' in "effects" && 'f' !in "capabilities"
  {
    assert "capabilities"[4] == 'b' && "effects"[1] == 'f';
  }

  lemma {:induction false} Keywords()
    ensures Word("effects") && Word("capabilities")
    ensures Find("effects", "capabilities").None? && Find("capabilities", "effects").None?
  {
    hide Find, Word;
    KeywordLetters();
    FindNeeds("effects", "capabilities", 'b');
    FindNeeds("capabilities", "effects", 'f');
  }

  lemma {:induction false} NamesFree(names: seq<string>, key: string)
    requires Word(key) && forall x <- names :: Find(x, key).None?
    ensures Find(JoinNames(names), key).None?
  {
    hide Find;
    if names == [] {
      NoneInEmpty(key);
    } else if |names| > 1 {
      NamesFree(names[1..], key);
      NoneInEmpty(key);
      NotAcross("", ' ', JoinNames(names[1..]), key);
      NotAcross(names[0], ',', "" + [' '] + JoinNames(names[1..]), key);
      assert JoinNames(names) == names[0] + [','] + ("" + [' '] + JoinNames(names[1..]));
    }
  }

  /** A clause does not contain the other clause's word. */
  lemma {:induction false} ClauseFree(keyword: string, names: seq<string>, key: string)
    requires Word(key) && Find(keyword, key).None? && forall x <- names :: Find(x, key).None?
    ensures Find(ClauseText(keyword, names), key).None?
  {
    hide Find, JoinNames;
    var inner := JoinNames(names);
    NamesFree(names, key);
    NoneInEmpty(key);
    NotAcross("", '}', "", key);
    var close := "" + ['}'] + "";
    NotAcross(inner, ' ', close, key);
    NotAcross("", ' ', inner + [' '] + close, key);
    NotAcross("", '{', "" + [' '] + (inner + [' '] + close), key);
    NotAcross(keyword, ' ', "" + ['{'] + ("" + [' '] + (inner + [' '] + close)), key);
    assert ClauseText(keyword, names)
        == keyword + [' '] + ("" + ['{'] + ("" + [' '] + (inner + [' '] + close)));
  }

  lemma {:induction false} SpacedFree(text: string, key: string, leading: bool, trailing: bool)
    requires Word(key) && Find(text, key).None?
    ensures Find(Space(leading) + text + Space(trailing), key).None?
  {
    hide Find;
    NoneInEmpty(key);
    NotAcross("", ' ', text, key);
    assert "" + [' '] + text == " " + text;
    var front := Space(leading) + text;
    assert Find(front, key).None? by {
      assert "" + text == text;
    }
    NotAcross(front, ' ', "", key);
    assert front + [' '] + "" == front + " " && front + "" == front;
  }

  // ---- a written request is read back -----------------------------------------------------------

  lemma {:induction false} NamesHaveNoBrace(names: seq<string>)
    requires forall x <- names :: PlainName(x)
    ensures '}' !in JoinNames(names)
  {
    hide Find;
    if names != [] {
      var x := names[0];
      assert x in names;
      assert forall k | 0 <= k < |x| :: Scanner.IsIdentChar(x[k]) && x[k] != '}';
      NamesHaveNoBrace(names[1..]);
    }
  }

  /** A clause as the compiler writes it is the clause that is read. */
  lemma {:induction false} WrittenClause(keyword: string, names: seq<string>)
    requires forall x <- names :: PlainName(x)
    ensures ExtractNamedClause(ClauseText(keyword, names), keyword) == Some(ClauseText(keyword, names))
  {
    hide PlainName, JoinNames;
    var text, n := ClauseText(keyword, names), |keyword|;
    var inner := " " + JoinNames(names) + " ";
    NamesHaveNoBrace(names);
    assert text == keyword + " {" + inner + "}";
    assert text[0..] == text && text[..n] == keyword;
    FindIsFirst(text, keyword, 0);
    assert text[n] == ' ' && text[n + 1] == '{' && text[|text| - 1] == '}';
    assert SkipSpaces(text, n + 1) == n + 1;
    assert SkipSpaces(text, n) == n + 1;
    forall k | n + 2 <= k < |text| - 1 ensures text[k] != '}' {
      assert text[k] == inner[k - n - 2];
    }
    CloseIs(text, n + 2, |text| - 1);
    assert text[0..|text|] == text;
  }

  /** Both clauses of a written request are read back, and no clause is read that is not there. */
  lemma {:induction false} RequestRead(r: Request)
    requires Made(r)
    ensures ExtractNamedClause(Written(r), "effects") == ClauseOf("effects", r.effects)
    ensures ExtractNamedClause(Written(r), "capabilities") == ClauseOf("capabilities", r.capabilities)
  {
    EffectsRead(r);
    CapabilitiesRead(r);
  }

  lemma {:induction false} NothingRead(text: string, keyword: string)
    requires Find(text, keyword).None?
    ensures ExtractNamedClause(text, keyword) == None
  {
  }

  lemma {:induction false} EffectsRead(r: Request)
    requires Made(r)
    ensures ExtractNamedClause(Written(r), "effects") == ClauseOf("effects", r.effects)
  {
    hide ExtractNamedClause, Find, ClauseText, Joined;
    Keywords();
    var effect, capability := ClauseOf("effects", r.effects), ClauseOf("capabilities", r.capabilities);
    if effect.Some? {
      WrittenClause("effects", r.effects);
      assert "effects"[0] == 'e';
      EffectFirst(effect.value, "effects", effect, capability, Space(r.leading), Space(r.trailing));
    } else {
      ClauseFree("capabilities", r.capabilities, "effects");
      SpacedFree(capability.value, "effects", r.leading, r.trailing);
      JoinedOne(capability.value);
      NothingRead(Written(r), "effects");
    }
  }

  lemma {:induction false} JoinedOne(clause: string)
    ensures Joined(None, Some(clause)) == clause && Joined(Some(clause), None) == clause
  {
  }

  lemma {:induction false} CapabilitiesRead(r: Request)
    requires Made(r)
    ensures ExtractNamedClause(Written(r), "capabilities") == ClauseOf("capabilities", r.capabilities)
  {
    hide ExtractNamedClause, Find, Joined;
    var key := "capabilities";
    Keywords();
    CapabilityWord();
    ClauseFree("effects", r.effects, key);
    var effect, capability := ClauseOf("effects", r.effects), ClauseOf(key, r.capabilities);
    if capability.Some? {
      WrittenClause(key, r.capabilities);
      assert effect.Some? ==> effect.value[|effect.value| - 1] == '}';
      SecondClause(capability.value, key, effect, capability, Space(r.leading), Space(r.trailing));
    } else {
      SpacedFree(effect.value, key, r.leading, r.trailing);
      JoinedOne(effect.value);
      NothingRead(Written(r), key);
    }
  }

  // ---- merging written requests --------------------------------------------------------------

  lemma {:induction false} WrittenEnds(r: Request)
    requires Made(r)
    ensures StartsWithSpace(Written(r)) <==> r.leading
    ensures EndsWithSpace(Written(r)) <==> r.trailing
  {
    hide JoinNames, PlainName;
    CoreEnds(r);
    hide ClauseOf, Joined;
    var core := Joined(ClauseOf("effects", r.effects), ClauseOf("capabilities", r.capabilities));
    var text := Written(r);
    assert r.leading ==> text[0] == ' ';
    assert !r.leading ==> text[0] == core[0];
    assert r.trailing ==> text[|text| - 1] == ' ';
    assert !r.trailing ==> text[|text| - 1] == core[|core| - 1];
  }

  lemma {:induction false} CoreEnds(r: Request)
    requires r.effects != [] || r.capabilities != []
    ensures var core := Joined(ClauseOf("effects", r.effects), ClauseOf("capabilities", r.capabilities));
            core != "" && (core[0] == 'e' || core[0] == 'c') && core[|core| - 1] == '}'
  {
    hide JoinNames;
    var e, c := ClauseText("effects", r.effects), ClauseText("capabilities", r.capabilities);
    assert e[0] == 'e' && e[|e| - 1] == '}' && c[0] == 'c' && c[|c| - 1] == '}';
  }

  lemma {:induction false} CombineMade(a: Request, b: Request)
    requires Made(a) && Made(b)
    ensures Made(Combine(a, b))
  {
    hide PlainName;
  }

  /** Merging two written requests writes the combined request. */
  lemma {:induction false} MergeWritten(a: Request, b: Request)
    requires Made(a) && Made(b)
    ensures Merge(Written(a), Written(b)) == Some(Written(Combine(a, b)))
  {
    hide ExtractNamedClause, Written, ClauseText, StartsWithSpace, EndsWithSpace, PlainName;
    RequestRead(a);
    RequestRead(b);
    WrittenEnds(a);
    WrittenEnds(b);
    WrittenIs(Combine(a, b));
  }

  lemma {:induction false} WrittenIs(r: Request)
    ensures Written(r) == Space(r.leading)
                          + Joined(ClauseOf("effects", r.effects), ClauseOf("capabilities", r.capabilities))
                          + Space(r.trailing)
  {
  }

  /** So does taking one in after the other, duplicates included. */
  lemma {:induction false} AbsorbWritten(a: Request, b: Request)
    requires Made(a) && Made(b)
    ensures Absorb(Written(a), Written(b)) == Written(Combine(a, b))
  {
    hide Merge, ExtractNamedClause, Written, ClauseText, StartsWithSpace, EndsWithSpace, PlainName;
    if Written(a) == Written(b) {
      RequestRead(a);
      RequestRead(b);
      WrittenEnds(a);
      WrittenEnds(b);
      WrittenIs(b);
      WrittenIs(Combine(a, b));
    } else {
      MergeWritten(a, b);
    }
  }

  function AllWritten(rs: seq<Request>): (texts: seq<string>)
    ensures |texts| == |rs| && forall k | 0 <= k < |rs| :: texts[k] == Written(rs[k])
  {
    seq(|rs|, k requires 0 <= k < |rs| => Written(rs[k]))
  }

  function CombineAll(rs: seq<Request>): Request
    requires rs != []
  {
    if |rs| == 1 then rs[0] else Combine(CombineAll(rs[..|rs| - 1]), rs[|rs| - 1])
  }

  /** All insertions at one place are merged to the request that combines them in order. */
  lemma {:induction false} FoldWritten(rs: seq<Request>)
    requires rs != [] && forall r <- rs :: Made(r)
    ensures Made(CombineAll(rs)) && FoldTexts(AllWritten(rs)) == Written(CombineAll(rs))
  {
    hide Made, Written, Absorb;
    if |rs| > 1 {
      var front, last := rs[..|rs| - 1], rs[|rs| - 1];
      FoldWritten(front);
      assert AllWritten(rs)[..|rs| - 1] == AllWritten(front);
      AbsorbWritten(CombineAll(front), last);
      CombineMade(CombineAll(front), last);
    }
  }

  // ---- what is asked for in the end --------------------------------------------------------------

  /** The last list that is not empty. */
  function LastList(lists: seq<seq<string>>): seq<string> {
    if lists == [] then []
    else if lists[|lists| - 1] != [] then lists[|lists| - 1]
    else LastList(lists[..|lists| - 1])
  }

  function Effects(rs: seq<Request>): (lists: seq<seq<string>>)
    ensures |lists| == |rs| && forall k | 0 <= k < |rs| :: lists[k] == rs[k].effects
  {
    seq(|rs|, k requires 0 <= k < |rs| => rs[k].effects)
  }

  function Capabilities(rs: seq<Request>): (lists: seq<seq<string>>)
    ensures |lists| == |rs| && forall k | 0 <= k < |rs| :: lists[k] == rs[k].capabilities
  {
    seq(|rs|, k requires 0 <= k < |rs| => rs[k].capabilities)
  }

  lemma {:induction false} CombineAllLast(rs: seq<Request>)
    requires rs != []
    ensures CombineAll(rs).effects == LastList(Effects(rs))
    ensures CombineAll(rs).capabilities == LastList(Capabilities(rs))
  {
    var front := rs[..|rs| - 1];
    assert Effects(rs)[..|rs| - 1] == Effects(front) && Capabilities(rs)[..|rs| - 1] == Capabilities(front);
    if |rs| > 1 {
      CombineAllLast(front);
    } else {
      assert LastList([]) == [];
    }
  }

  predicate Subset(a: seq<string>, b: seq<string>) {
    forall x <- a :: x in b
  }

  /** The text merged from two insertions asks for every effect either asked for exactly when
      one of them has no list of effects or the later lists all names of the earlier; and so for
      capabilities. */
  lemma {:induction false} MergeLosesNothing(a: Request, b: Request)
    requires Made(a) && Made(b)
    ensures var r := Combine(a, b);
            && Merge(Written(a), Written(b)) == Some(Written(r))
            && (Subset(a.effects, r.effects) && Subset(b.effects, r.effects) <==>
                  a.effects == [] || b.effects == [] || Subset(a.effects, b.effects))
            && (Subset(a.capabilities, r.capabilities) && Subset(b.capabilities, r.capabilities) <==>
                  a.capabilities == [] || b.capabilities == [] || Subset(a.capabilities, b.capabilities))
  {
    hide Merge, Written, Made;
    MergeWritten(a, b);
  }

  // ---- the names the compiler knows ---------------------------------------------------------------

  const KNOWN_EFFECTS := ["io", "fs", "net", "time", "rand", "env", "proc", "concurrency"]

  lemma {:induction false} PlainWithout(x: string, c: char)
    requires (forall k | 0 <= k < |x| :: Scanner.IsIdentChar(x[k])) && 'b' !in x && c !in x && c in "effects"
    ensures PlainName(x)
  {
    hide Find;
    KeywordLetters();
    FindNeeds(x, "capabilities", 'b');
    FindNeeds(x, "effects", c);
  }

  /** None of them contains either word. */
  lemma {:induction false} KnownArePlain()
    ensures forall x <- KNOWN_EFFECTS :: PlainName(x)
  {
    hide PlainName;
    assert 'f' in "effects" && 'e' in "effects" by {
      assert "effects"[0] == 'e' && "effects"[1] == 'f';
    }
    PlainWithout("io", 'f');
    PlainWithout("fs", 'e');
    PlainWithout("net", 'f');
    PlainWithout("time", 'f');
    PlainWithout("rand", 'f');
    PlainWithout("env", 'f');
    PlainWithout("proc", 'f');
    PlainWithout("concurrency", 'f');
  }
}
