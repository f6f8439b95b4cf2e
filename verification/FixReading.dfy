/** What the compiler reads from the source once an insertion is in it: the text is lexed as
    the tokens of its clauses, and these parse to the lists asked for. */
module FixReading {
  import opened Wrappers
  import opened Scanner
  import opened PrintedText
  import opened PrintedLexing
  import opened FixClauses
  import opened FixRequests

  // ---- the parser's two clauses --------------------------------------------------------------

  /** The names up to the closing brace, and what follows it. */
  function ParseNames(kinds: seq<TokenKind>): Option<(seq<string>, seq<TokenKind>)> {
    if kinds == [] then None
    else if kinds[0] == Symbol("}") then Some(([], kinds[1..]))
    else if !kinds[0].Ident? || |kinds| == 1 then None
    else if kinds[1] == Symbol(",") then
      match ParseNames(kinds[2..])
      case None => None
      case Some((names, rest)) => Some(([kinds[0].name] + names, rest))
    else if kinds[1] == Symbol("}") then Some(([kinds[0].name], kinds[2..]))
    else None
  }

  /** A clause that is not there has no names. */
  function ParseClause(keyword: string, kinds: seq<TokenKind>): Option<(seq<string>, seq<TokenKind>)> {
    if kinds == [] || kinds[0] != Keyword(keyword) then Some(([], kinds))
    else if |kinds| == 1 || kinds[1] != Symbol("{") then None
    else ParseNames(kinds[2..])
  }

  datatype Clauses = Clauses(effects: seq<string>, capabilities: seq<string>, rest: seq<TokenKind>)

  /** The effects and then the capabilities of a signature. */
  function ParseClauses(kinds: seq<TokenKind>): Option<Clauses> {
    match ParseClause("effects", kinds)
    case None => None
    case Some((effects, more)) =>
      match ParseClause("capabilities", more)
      case None => None
      case Some((capabilities, rest)) => Some(Clauses(effects, capabilities, rest))
  }

  // ---- the tokens of a request ----------------------------------------------------------------

  function NamesKinds(names: seq<string>): seq<TokenKind> {
    if names == [] then []
    else if |names| == 1 then [Ident(names[0])]
    else [Ident(names[0]), Symbol(",")] + NamesKinds(names[1..])
  }

  function ClauseKinds(keyword: string, names: seq<string>): seq<TokenKind> {
    if names == [] then [] else [Keyword(keyword), Symbol("{")] + NamesKinds(names) + [Symbol("}")]
  }

  function RequestKinds(r: Request): seq<TokenKind> {
    ClauseKinds("effects", r.effects) + ClauseKinds("capabilities", r.capabilities)
  }

  lemma {:induction false} ParseSteps(name: string, more: seq<TokenKind>)
    ensures ParseNames([Symbol("}")] + more) == Some(([], more))
    ensures ParseNames([Ident(name), Symbol("}")] + more) == Some(([name], more))
    ensures ParseNames(more).Some? ==>
              ParseNames([Ident(name), Symbol(",")] + more)
                == Some(([name] + ParseNames(more).value.0, ParseNames(more).value.1))
  {
    assert "}"[0] != ","[0];
    var last, next := [Ident(name), Symbol("}")] + more, [Ident(name), Symbol(",")] + more;
    assert ([Symbol("}")] + more)[1..] == more;
    assert last[0] == Ident(name) && last[1] == Symbol("}") && last[2..] == more;
    assert next[0] == Ident(name) && next[1] == Symbol(",") && next[2..] == more;
  }

  lemma {:induction false} NamesParse(names: seq<string>, rest: seq<TokenKind>)
    ensures ParseNames(NamesKinds(names) + ([Symbol("}")] + rest)) == Some((names, rest))
  {
    hide ParseNames;
    var close := [Symbol("}")] + rest;
    if names == [] {
      ParseSteps("", rest);
      assert [] + close == close;
    } else if |names| == 1 {
      ParseSteps(names[0], rest);
      assert [names[0]] == names && [Ident(names[0])] + close == [Ident(names[0]), Symbol("}")] + rest;
    } else {
      var more := NamesKinds(names[1..]);
      NamesParse(names[1..], rest);
      ParseSteps(names[0], more + close);
      assert [names[0]] + names[1..] == names;
      assert [Ident(names[0]), Symbol(",")] + more + close == [Ident(names[0]), Symbol(",")] + (more + close);
    }
  }

  lemma {:induction false} ParseOpened(keyword: string, more: seq<TokenKind>)
    ensures ParseClause(keyword, [Keyword(keyword), Symbol("{")] + more) == ParseNames(more)
  {
    hide ParseNames;
    var kinds := [Keyword(keyword), Symbol("{")] + more;
    assert kinds[0] == Keyword(keyword) && kinds[1] == Symbol("{") && kinds[2..] == more;
  }

  lemma {:induction false} ClauseParses(keyword: string, names: seq<string>, rest: seq<TokenKind>)
    requires rest != [] && rest[0] != Keyword(keyword)
    ensures ParseClause(keyword, ClauseKinds(keyword, names) + rest) == Some((names, rest))
  {
    hide ParseNames, NamesKinds;
    if names == [] {
      assert ClauseKinds(keyword, names) + rest == rest;
    } else {
      hide ParseClause;
      var open, body := [Keyword(keyword), Symbol("{")], NamesKinds(names);
      NamesParse(names, rest);
      ParseOpened(keyword, body + ([Symbol("}")] + rest));
      assert open + body + [Symbol("}")] + rest == open + (body + ([Symbol("}")] + rest));
    }
  }

  predicate EndsClauses(rest: seq<TokenKind>) {
    rest != [] && rest[0] != Keyword("effects") && rest[0] != Keyword("capabilities")
  }

  /** The parser reads the lists of the request. */
  lemma {:induction false} RequestParses(r: Request, rest: seq<TokenKind>)
    requires EndsClauses(rest)
    ensures ParseClauses(RequestKinds(r) + rest) == Some(Clauses(r.effects, r.capabilities, rest))
  {
    hide ParseClause;
    var more := ClauseKinds("capabilities", r.capabilities) + rest;
    ClauseParses("capabilities", r.capabilities, rest);
    assert more != [] && more[0] != Keyword("effects") by {
      assert "effects"[0] != "capabilities"[0];
    }
    ClauseParses("effects", r.effects, more);
    assert RequestKinds(r) + rest == ClauseKinds("effects", r.effects) + more;
  }

  // ---- the text of a request lexed ----------------------------------------------------------------

  lemma {:induction false} BraceReads(s: string, i: nat, c: char)
    requires i < |s| && s[i] == c && (c == '{' || c == '}')
    ensures LexesAs(s, i, 1, [Symbol([c])])
  {
    assert s[i..i + 1] == [c];
    SymbolReads(s, i, 1);
  }

  lemma {:induction false} NameLexes(s: string, i: nat, x: string)
    requires IsIdentifier(x) && Spells(s, i, x) && StopsAt(s, i + |x|)
    ensures LexesAs(s, i, |x|, [Ident(x)])
  {
    hide KEYWORDS, LexesAs, Spells, StopsAt;
    NameReads(s, i, x);
  }

  lemma {:induction false} KeywordLexes(s: string, i: nat, keyword: string)
    requires keyword == "effects" || keyword == "capabilities"
    requires Spells(s, i, keyword) && StopsAt(s, i + |keyword|)
    ensures LexesAs(s, i, |keyword|, [Keyword(keyword)])
  {
    hide LexesAs, Spells, StopsAt;
    assert NameKind(keyword) == Keyword(keyword);
    hide KEYWORDS;
    NameReads(s, i, keyword);
  }

  lemma {:induction false} CommaBlank(s: string, i: nat)
    requires i + 1 < |s| && s[i] == ',' && s[i + 1] == ' '
    ensures LexesAs(s, i, 2, [Symbol(",")])
  {
    hide LexesAs;
    BracketReads(s, i, ',');
    LexBlank(s, i + 1);
    LexChain(s, i, 1, 1, [Symbol(",")], []);
    assert [Symbol(",")] + [] == [Symbol([','])];
  }

  lemma {:induction false} NamesLex(s: string, i: nat, names: seq<string>)
    requires names != [] && (forall x <- names :: IsIdentifier(x))
    requires Spells(s, i, JoinNames(names)) && StopsAt(s, i + |JoinNames(names)|)
    ensures LexesAs(s, i, |JoinNames(names)|, NamesKinds(names))
    decreases |names|
  {
    hide LexesAs, IsIdentifier, Spells, StopsAt;
    if |names| == 1 {
      NameLexes(s, i, names[0]);
    } else {
      var head, tail := names[0], JoinNames(names[1..]);
      assert JoinNames(names) == head + "," + " " + tail by {
        assert ", " == "," + " ";
      }
      ArgParts(s, i, head, tail);
      NameLexes(s, i, head);
      CommaBlank(s, i + |head|);
      NamesLex(s, i + |head| + 2, names[1..]);
      LexChain(s, i, |head|, 2, [Ident(head)], [Symbol(",")]);
      LexChain(s, i, |head| + 2, |tail|, [Ident(head)] + [Symbol(",")], NamesKinds(names[1..]));
      assert [Ident(head)] + [Symbol(",")] == [Ident(head), Symbol(",")];
    }
  }

  lemma {:induction false} CharThen(s: string, i: nat, c: char, more: string)
    requires Spells(s, i, [c] + more)
    ensures i < |s| && s[i] == c && (c == ' ' ==> StopsAt(s, i)) && Spells(s, i + 1, more)
  {
    hide Spells, StopsAt;
    SpellsParts(s, i, [c], more);
    SpellsChar(s, i, c);
  }

  lemma {:induction false} ClausePieces(keyword: string, inner: string)
    ensures keyword + " { " + inner + " }" == keyword + ([' '] + (['{'] + ([' '] + (inner + ([' '] + (['}'] + ""))))))
  {
    var open, close := [' '] + (['{'] + [' ']), [' '] + (['}'] + "");
    assert " { " == open && " }" == close;
    assert keyword + open + inner + close == keyword + (open + (inner + close));
    assert open + (inner + close) == [' '] + (['{'] + ([' '] + (inner + close)));
  }

  lemma {:induction false} ClauseSpots(s: string, i: nat, keyword: string, inner: string)
    requires Spells(s, i, keyword + " { " + inner + " }")
    ensures var j := i + |keyword|;
            && Spells(s, i, keyword) && StopsAt(s, j)
            && j + 2 < |s| && s[j] == ' ' && s[j + 1] == '{' && s[j + 2] == ' '
            && Spells(s, j + 3, inner) && StopsAt(s, j + 3 + |inner|)
            && j + 4 + |inner| < |s| && s[j + 3 + |inner|] == ' ' && s[j + 4 + |inner|] == '}'
  {
    hide Spells, StopsAt;
    var j, k := i + |keyword|, i + |keyword| + 3 + |inner|;
    ClausePieces(keyword, inner);
    var close := ['}'] + "";
    var tail := inner + ([' '] + close);
    SpellsParts(s, i, keyword, [' '] + (['{'] + ([' '] + tail)));
    CharThen(s, j, ' ', ['{'] + ([' '] + tail));
    CharThen(s, j + 1, '{', [' '] + tail);
    CharThen(s, j + 2, ' ', tail);
    SpellsParts(s, j + 3, inner, [' '] + close);
    CharThen(s, k, ' ', close);
    CharThen(s, k + 1, '}', "");
  }

  lemma {:induction false} ClauseLexes(s: string, i: nat, keyword: string, names: seq<string>)
    requires (keyword == "effects" || keyword == "capabilities") && names != []
    requires (forall x <- names :: IsIdentifier(x)) && Spells(s, i, ClauseText(keyword, names))
    ensures LexesAs(s, i, |ClauseText(keyword, names)|, ClauseKinds(keyword, names))
  {
    hide LexesAs, IsIdentifier, Spells, StopsAt, JoinNames, NamesKinds;
    var inner, j := JoinNames(names), i + |keyword|;
    ClauseSpots(s, i, keyword, inner);
    KeywordLexes(s, i, keyword);
    LexBlank(s, j);
    BraceReads(s, j + 1, '{');
    LexBlank(s, j + 2);
    NamesLex(s, j + 3, names);
    LexBlank(s, j + 3 + |inner|);
    BraceReads(s, j + 4 + |inner|, '}');
    var w, kinds := |keyword|, NamesKinds(names);
    LexChain(s, i, w, 1, [Keyword(keyword)], []);
    LexChain(s, i, w + 1, 1, [Keyword(keyword)] + [], [Symbol(['{'])]);
    LexChain(s, i, w + 2, 1, [Keyword(keyword)] + [] + [Symbol(['{'])], []);
    LexChain(s, i, w + 3, |inner|, [Keyword(keyword)] + [] + [Symbol(['{'])] + [], kinds);
    LexChain(s, i, w + 3 + |inner|, 1, [Keyword(keyword)] + [] + [Symbol(['{'])] + [] + kinds, []);
    LexChain(s, i, w + 4 + |inner|, 1, [Keyword(keyword)] + [] + [Symbol(['{'])] + [] + kinds + [], [Symbol(['}'])]);
    assert [Keyword(keyword)] + [] + [Symbol(['{'])] + [] + kinds + [] + [Symbol(['}'])]
        == ClauseKinds(keyword, names);
  }

  lemma {:induction false} SpaceLexes(s: string, i: nat, present: bool)
    requires Spells(s, i, Space(present))
    ensures LexesAs(s, i, |Space(present)|, [])
  {
    hide LexesAs, Spells;
    if present {
      SpellsChar(s, i, ' ');
      LexBlank(s, i);
    } else {
      SpellsInside(s, i, Space(present));
      LexNone(s, i);
    }
  }

  lemma {:induction false} OptionalLexes(s: string, i: nat, keyword: string, names: seq<string>)
    requires keyword == "effects" || keyword == "capabilities"
    requires forall x <- names :: IsIdentifier(x)
    requires Spells(s, i, if names == [] then "" else ClauseText(keyword, names))
    ensures LexesAs(s, i, if names == [] then 0 else |ClauseText(keyword, names)|, ClauseKinds(keyword, names))
  {
    hide LexesAs, Spells, ClauseText, IsIdentifier;
    if names == [] {
      SpellsInside(s, i, "");
      LexNone(s, i);
    } else {
      ClauseLexes(s, i, keyword, names);
    }
  }

  lemma {:induction false} JoinedPieces(r: Request)
    ensures Joined(ClauseOf("effects", r.effects), ClauseOf("capabilities", r.capabilities)) ==
            (if r.effects == [] then "" else ClauseText("effects", r.effects))
            + (Space(r.effects != [] && r.capabilities != [])
               + if r.capabilities == [] then "" else ClauseText("capabilities", r.capabilities))
  {
    hide ClauseText;
  }

  /** The two clauses with the blank between them, if both are there. */
  lemma {:induction false} JoinedLexes(s: string, i: nat, r: Request)
    requires (forall x <- r.effects :: IsIdentifier(x)) && (forall x <- r.capabilities :: IsIdentifier(x))
    requires Spells(s, i, Joined(ClauseOf("effects", r.effects), ClauseOf("capabilities", r.capabilities)))
    ensures LexesAs(s, i, |Joined(ClauseOf("effects", r.effects), ClauseOf("capabilities", r.capabilities))|,
              RequestKinds(r))
  {
    hide LexesAs, Spells, ClauseText, IsIdentifier, ClauseKinds, Joined, ClauseOf, Space;
    var e := if r.effects == [] then "" else ClauseText("effects", r.effects);
    var c := if r.capabilities == [] then "" else ClauseText("capabilities", r.capabilities);
    var between := Space(r.effects != [] && r.capabilities != []);
    JoinedPieces(r);
    SpellsParts(s, i, e, between + c);
    SpellsParts(s, i + |e|, between, c);
    OptionalLexes(s, i, "effects", r.effects);
    SpaceLexes(s, i + |e|, r.effects != [] && r.capabilities != []);
    OptionalLexes(s, i + |e| + |between|, "capabilities", r.capabilities);
    var ek, ck := ClauseKinds("effects", r.effects), ClauseKinds("capabilities", r.capabilities);
    LexChain(s, i, |e|, |between|, ek, []);
    LexChain(s, i, |e| + |between|, |c|, ek + [], ck);
    assert ek + [] + ck == ek + ck;
  }

  /** Wherever the text of a request stands, it is lexed as the request's tokens. */
  lemma {:induction false} RequestLexes(s: string, i: nat, r: Request)
    requires (forall x <- r.effects :: IsIdentifier(x)) && (forall x <- r.capabilities :: IsIdentifier(x))
    requires Spells(s, i, Written(r))
    ensures LexesAs(s, i, |Written(r)|, RequestKinds(r))
  {
    hide LexesAs, Spells, ClauseOf, IsIdentifier, RequestKinds, Joined;
    var front := Space(r.leading);
    var core := Joined(ClauseOf("effects", r.effects), ClauseOf("capabilities", r.capabilities));
    SpellsParts(s, i, front + core, Space(r.trailing));
    SpellsParts(s, i, front, core);
    SpaceLexes(s, i, r.leading);
    JoinedLexes(s, i + |front|, r);
    SpaceLexes(s, i + |front| + |core|, r.trailing);
    LexChain(s, i, |front|, |core|, [], RequestKinds(r));
    LexChain(s, i, |front| + |core|, |Space(r.trailing)|, [] + RequestKinds(r), []);
    assert [] + RequestKinds(r) + [] == RequestKinds(r);
  }

  /** The compiler reads the lists of a request from a source in which its text stands where a
      signature may have its clauses. */
  lemma {:induction false} InsertionRead(s: string, i: nat, r: Request)
    requires (forall x <- r.effects :: IsIdentifier(x)) && (forall x <- r.capabilities :: IsIdentifier(x))
    requires Spells(s, i, Written(r)) && i + |Written(r)| <= |s|
    requires EndsClauses(Kinds(LexFrom(s, i + |Written(r)|).tokens))
    ensures var rest := Kinds(LexFrom(s, i + |Written(r)|).tokens);
            ParseClauses(Kinds(LexFrom(s, i).tokens)) == Some(Clauses(r.effects, r.capabilities, rest))
  {
    hide LexFrom, Spells, Written, IsIdentifier, RequestKinds, ParseClauses, EndsClauses;
    RequestLexes(s, i, r);
    RequestParses(r, Kinds(LexFrom(s, i + |Written(r)|).tokens));
  }
}
