/** The edited text read front to back, and which positions are between characters. */
module EditedText {
  import opened Wrappers
  import opened TextEdits

  // ---- front to back ------------------------------------------------------------------------------

  /** Edits in the order of the text, none starting before the one in front of it has ended. */
  predicate Ascending(edits: seq<Edit>, from: nat, limit: nat) {
    if edits == [] then from <= limit
    else from <= edits[0].start <= edits[0].end && Ascending(edits[1..], edits[0].end, limit)
  }

  lemma {:induction false} AscendingFits(edits: seq<Edit>, from: nat, limit: nat)
    requires Ascending(edits, from, limit)
    ensures from <= limit && (edits != [] ==> edits[0].start <= edits[0].end <= limit)
  {
    if edits != [] {
      AscendingFits(edits[1..], edits[0].end, limit);
    }
  }

  /** The source from `from` on: what stands before the first edit, its replacement, and so on. */
  function Edited(source: Text, edits: seq<Edit>, from: nat): Text
    requires Ascending(edits, from, |source|)
  {
    AscendingFits(edits, from, |source|);
    if edits == [] then source[from..]
    else source[from..edits[0].start] + edits[0].replacement + Edited(source, edits[1..], edits[0].end)
  }

  function Reversed(edits: seq<Edit>): (r: seq<Edit>)
    ensures |r| == |edits|
  {
    if edits == [] then [] else Reversed(edits[1..]) + [edits[0]]
  }

  lemma {:induction false} AscendingSnoc(edits: seq<Edit>, from: nat, last: Edit, limit: nat)
    requires Ascending(edits, from, last.start) && last.start <= last.end <= limit
    ensures Ascending(edits + [last], from, limit)
  {
    if edits == [] {
      assert edits + [last] == [last] && [last][1..] == [];
    } else {
      assert (edits + [last])[1..] == edits[1..] + [last];
      AscendingSnoc(edits[1..], edits[0].end, last, limit);
    }
  }

  lemma {:induction false} EditedFirst(source: Text, edits: seq<Edit>, from: nat)
    requires edits != [] && Ascending(edits, from, |source|)
    ensures edits[0].start <= |source| && Ascending(edits[1..], edits[0].end, |source|)
    ensures Edited(source, edits, from)
         == source[from..edits[0].start] + edits[0].replacement + Edited(source, edits[1..], edits[0].end)
  {
    AscendingFits(edits, from, |source|);
  }

  lemma {:induction false} EditedOne(source: Text, from: nat, last: Edit)
    requires from <= last.start <= last.end <= |source|
    ensures Ascending([last], from, |source|) && Ascending([], from, |source[..last.start]|)
    ensures Edited(source, [last], from)
         == Edited(source[..last.start], [], from) + last.replacement + source[last.end..]
  {
    assert [last][1..] == [] && Edited(source, [], last.end) == source[last.end..];
    assert source[..last.start][from..] == source[from..last.start];
  }

  lemma {:induction false} Regroup(a: Text, b: Text, c: Text, d: Text, e: Text)
    ensures a + b + (c + d + e) == (a + b + c) + d + e
  {
  }

  lemma {:induction false} EditedSnoc(source: Text, edits: seq<Edit>, from: nat, last: Edit)
    requires Ascending(edits, from, last.start) && last.start <= last.end <= |source|
    ensures Ascending(edits + [last], from, |source|) && Ascending(edits, from, |source[..last.start]|)
    ensures Edited(source, edits + [last], from)
         == Edited(source[..last.start], edits, from) + last.replacement + source[last.end..]
  {
    hide Edited;
    AscendingSnoc(edits, from, last, |source|);
    AscendingFits(edits, from, last.start);
    if edits == [] {
      EditedOne(source, from, last);
      assert edits + [last] == [last];
    } else {
      var e, cut := edits[0], source[..last.start];
      assert (edits + [last])[1..] == edits[1..] + [last];
      EditedSnoc(source, edits[1..], e.end, last);
      EditedFirst(source, edits + [last], from);
      EditedFirst(cut, edits, from);
      assert cut[from..e.start] == source[from..e.start];
      Regroup(source[from..e.start], e.replacement, Edited(cut, edits[1..], e.end), last.replacement,
              source[last.end..]);
    }
  }

  /** The splice back to front is the text front to back. */
  lemma {:induction false} SpliceIsEdited(source: Text, desc: seq<Edit>, limit: nat)
    requires limit <= |source| && Chained(desc, limit)
    ensures Ascending(Reversed(desc), 0, |source[..limit]|)
    ensures Splice(source, desc, limit) == Edited(source[..limit], Reversed(desc), 0)
  {
    if desc == [] {
      assert source[..limit][0..] == source[..limit];
    } else {
      var last := desc[0];
      SpliceIsEdited(source, desc[1..], last.start);
      EditedSnoc(source[..limit], Reversed(desc[1..]), 0, last);
      assert source[..limit][..last.start] == source[..last.start];
      assert source[..limit][last.end..] == source[last.end..limit];
    }
  }

  lemma {:induction false} ReversedSame(edits: seq<Edit>)
    ensures multiset(Reversed(edits)) == multiset(edits)
  {
    if edits != [] {
      ReversedSame(edits[1..]);
      assert edits == [edits[0]] + edits[1..];
    }
  }

  /** What the applier returns, if every edit fits: the source with the same edits in the order of
      the text, each range replaced and everything between them kept. */
  lemma {:induction false} AppliedText(source: Text, edits: seq<Edit>) returns (ordered: seq<Edit>)
    requires NonConflicting(edits) && forall e <- edits :: Fits(source, e)
    ensures multiset(ordered) == multiset(edits) && Ascending(ordered, 0, |source|)
    ensures Chained(BackToFront(edits), |source|)
    ensures Splice(source, BackToFront(edits), |source|) == Edited(source, ordered, 0)
  {
    hide Fits, NonConflicting, Descending, Splice, Edited;
    var desc := BackToFront(edits);
    SortDescending(edits);
    SortNonConflicting(edits);
    SameEdits(edits);
    LastFits(source, desc);
    FittingChained(source, desc, |source|);
    SpliceIsEdited(source, desc, |source|);
    assert source[..|source|] == source;
    ordered := Reversed(desc);
    ReversedSame(desc);
  }

  lemma {:induction false} LastFits(source: Text, desc: seq<Edit>)
    requires forall e <- desc :: Fits(source, e)
    ensures desc != [] ==> desc[0].end <= |source|
  {
    if desc != [] {
      assert Fits(source, desc[0]);
    }
  }

  // ---- characters -----------------------------------------------------------------------------------

  /** The bytes of a character in UTF-8, section 3 of RFC 3629. */
  function Encode(c: char): (bytes: Text)
    ensures 1 <= |bytes| <= 4
  {
    var n := c as int;
    if n < 0x80 then [n as Byte]
    else if n < 0x800 then [(0xC0 + n / 0x40) as Byte, (0x80 + n % 0x40) as Byte]
    else if n < 0x1_0000 then
      [(0xE0 + n / 0x1000) as Byte, (0x80 + n / 0x40 % 0x40) as Byte, (0x80 + n % 0x40) as Byte]
    else
      [(0xF0 + n / 0x4_0000) as Byte, (0x80 + n / 0x1000 % 0x40) as Byte, (0x80 + n / 0x40 % 0x40) as Byte,
       (0x80 + n % 0x40) as Byte]
  }

  function EncodeAll(s: string): Text {
    if s == "" then [] else Encode(s[0]) + EncodeAll(s[1..])
  }

  lemma {:induction false} EncodeStarts(c: char)
    ensures !Continuation(Encode(c)[0]) && forall k | 1 <= k < |Encode(c)| :: Continuation(Encode(c)[k])
  {
  }

  /** The position stands between two characters, or at an end. */
  ghost predicate Between(s: string, i: nat) {
    exists k | 0 <= k <= |s| :: |EncodeAll(s[..k])| == i
  }

  lemma {:induction false} EncodeFront(s: string, k: nat)
    requires s != "" && k < |s|
    ensures EncodeAll(s[..k + 1]) == Encode(s[0]) + EncodeAll(s[1..][..k])
  {
    assert s[..k + 1][1..] == s[1..][..k];
  }

  lemma {:induction false} BetweenNext(s: string, i: nat)
    requires s != ""
    ensures Between(s, i) <==> i == 0 || (i >= |Encode(s[0])| && Between(s[1..], i - |Encode(s[0])|))
  {
    hide Encode;
    if Between(s, i) {
      var k :| 0 <= k <= |s| && |EncodeAll(s[..k])| == i;
      if k == 0 {
        assert s[..0] == "";
      } else {
        EncodeFront(s, k - 1);
      }
    }
    if i == 0 {
      assert s[..0] == "" && |EncodeAll(s[..0])| == 0;
    } else if i >= |Encode(s[0])| && Between(s[1..], i - |Encode(s[0])|) {
      var k :| 0 <= k <= |s[1..]| && |EncodeAll(s[1..][..k])| == i - |Encode(s[0])|;
      EncodeFront(s, k);
    }
  }

  lemma {:induction false} WholeStarts(s: string)
    ensures StartsWhole(EncodeAll(s))
  {
    if s != "" {
      EncodeStarts(s[0]);
    }
  }

  /** The positions the applier takes for character boundaries are those between characters. */
  lemma {:induction false} BoundariesAreBetween(s: string, i: nat)
    ensures IsCharBoundary(EncodeAll(s), i) <==> Between(s, i)
    decreases |s|
  {
    hide Encode, Between;
    if s == "" {
      EmptyBetween(i);
    } else {
      var first, rest := Encode(s[0]), EncodeAll(s[1..]);
      var n := |first|;
      BetweenNext(s, i);
      EncodeStarts(s[0]);
      WholeStarts(s[1..]);
      if i >= n {
        BoundariesAreBetween(s[1..], i - n);
        assert i < n + |rest| ==> (first + rest)[i] == rest[i - n];
      } else if i > 0 {
        assert (first + rest)[i] == first[i];
      }
    }
  }

  lemma {:induction false} EmptyBetween(i: nat)
    ensures Between("", i) <==> i == 0
  {
    assert ""[..0] == "";
  }
}
