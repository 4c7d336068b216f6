/** `InstanceLineage::parent` on every identifier that `parse` accepts, whatever colons its
    tokens hold (src/node_status.rs:21-67): `parse` splits from the left, `parent` from the
    right, and they can disagree. */
module LineageParent {
  import opened Prelude
  import opened Text
  import opened Lineage

  lemma {:induction false} JoinSplit(s: string)
    ensures Join(Split(s, SEP), SEP) == s
    decreases |s|
  {
    match FindFrom(s, SEP, 0) {
      case None =>
      case Some(i) =>
        var rest := Split(s[i + 2..], SEP);
        JoinSplit(s[i + 2..]);
        assert ([s[..i]] + rest)[1..] == rest;
        assert s == s[..i] + SEP + s[i + 2..];
    }
  }

  /** No occurrence of the separator begins before `n`. */
  predicate NoneBefore(s: string, n: nat) { forall j :: 0 <= j < n ==> !OccursAt(s, SEP, j) }

  lemma FindIs(s: string, i: nat)
    requires OccursAt(s, SEP, i) && NoneBefore(s, i)
    ensures FindFrom(s, SEP, 0) == Some(i)
  {
  }

  /** Two strings that agree beyond an occurrence have the same first occurrence. */
  lemma SameFirst(s: string, i: nat, more: string)
    requires FindFrom(s, SEP, 0) == Some(i)
    ensures FindFrom(s[..i] + SEP + more, SEP, 0) == Some(i)
    ensures FindFrom(s[..i], SEP, 0) == None
  {
    var t := s[..i] + SEP + more;
    assert s[i] == s[i..i + 2][0] && t[i..i + 2] == SEP && t[i] == t[i..i + 2][0];
    assert forall l :: 0 <= l <= i ==> s[l] == t[l];
    forall j | 0 <= j < i ensures !OccursAt(t, SEP, j) && !OccursAt(s[..i], SEP, j) {
      assert !OccursAt(s, SEP, j);
      assert s[j..j + 2] == t[j..j + 2];
    }
    FindIs(t, i);
    assert forall j :: 0 <= j ==> !OccursAt(s[..i], SEP, j);
  }

  lemma SplitCons(s: string, i: nat, more: string)
    requires FindFrom(s, SEP, 0) == Some(i)
    ensures Split(s[..i], SEP) == [s[..i]]
    ensures Split(s[..i] + SEP + more, SEP) == [s[..i]] + Split(more, SEP)
  {
    SameFirst(s, i, more);
    hide FindFrom;
    var t := s[..i] + SEP + more;
    assert t[..i] == s[..i] && t[i + 2..] == more;
  }

  /** Cutting an identifier behind one of its tokens leaves the tokens up to there. */
  lemma {:induction false} SplitPrefix(s: string, k: nat)
    requires 0 < k <= |Split(s, SEP)|
    ensures Split(Join(Split(s, SEP)[..k], SEP), SEP) == Split(s, SEP)[..k]
    decreases |s|
  {
    hide FindFrom;
    var tokens := Split(s, SEP);
    var first := FindFrom(s, SEP, 0);
    if first.None? {
      assert tokens[..k] == [s];
    } else {
      var i := first.value;
      var rest := Split(s[i + 2..], SEP);
      assert tokens == [s[..i]] + rest;
      if k == 1 {
        SplitCons(s, i, "");
        hide Split;
        assert tokens[..1] == [s[..i]];
      } else {
        SplitPrefix(s[i + 2..], k - 1);
        SplitCons(s, i, Join(rest[..k - 1], SEP));
        hide Split;
        assert tokens[..k] == [s[..i]] + rest[..k - 1];
        assert tokens[..k][1..] == rest[..k - 1];
      }
    }
  }

  /** A token that holds no separator. */
  predicate Solid(t: string) { FindFrom(t, SEP, 0).None? }

  lemma {:induction false} LastIsSolid(s: string)
    ensures var tokens := Split(s, SEP); Solid(tokens[|tokens| - 1])
    decreases |s|
  {
    var first := FindFrom(s, SEP, 0);
    if first.Some? { LastIsSolid(s[first.value + 2..]); }
  }

  /** An identifier with pairs, cut before its last generation and its last node. */
  lemma CutLastPair(id: string)
    requires |Split(id, SEP)| >= 3
    ensures var tokens := Split(id, SEP);
            id == Join(tokens[..|tokens| - 2], SEP) + SEP + tokens[|tokens| - 2] + SEP + tokens[|tokens| - 1]
  {
    var tokens := Split(id, SEP);
    var n := |tokens|;
    JoinSplit(id);
    JoinAppend(tokens[..n - 2], tokens[n - 2], SEP);
    JoinAppend(tokens[..n - 1], tokens[n - 1], SEP);
    assert tokens[..n - 1] == tokens[..n - 2] + [tokens[n - 2]];
    assert tokens == tokens[..n - 1] + [tokens[n - 1]];
  }

  lemma FindLastIs(s: string, i: nat)
    requires OccursAt(s, SEP, i) && forall j :: i < j <= |s| ==> !OccursAt(s, SEP, j)
    ensures RSplitOnce(s, SEP) == Some((s[..i], s[i + 2..]))
  {
    assert FindLast(s, SEP, |s|) == Some(i);
  }

  /** Splitting off a last token from the right, when it does not begin with a colon. */
  lemma RSplitToken(front: string, last: string)
    requires last != "" && last[0] != ':' && Solid(last)
    ensures RSplitOnce(front + SEP + last, SEP) == Some((front, last))
  {
    var s, i := front + SEP + last, |front|;
    assert s[i..i + 2] == SEP && s[i + 1] == ':' && s[i + 2] == last[0];
    forall j | i < j <= |s| ensures !OccursAt(s, SEP, j) {
      if j + 2 <= |s| {
        if j == i + 1 {
          assert s[j..j + 2][1] == last[0];
        } else {
          assert s[j..j + 2] == last[j - i - 2..j - i];
          assert !OccursAt(last, SEP, j - i - 2);
        }
      }
    }
    FindLastIs(s, i);
    assert s[..i] == front && s[i + 2..] == last;
  }

  /** When it does begin with a colon, one colon too many goes to it. */
  lemma RSplitColonToken(front: string, last: string)
    requires last != "" && last[0] == ':' && Solid(last)
    ensures RSplitOnce(front + SEP + last, SEP) == Some((front + ":", last[1..]))
  {
    var s, i := front + SEP + last, |front|;
    assert s[i + 1] == ':' && s[i + 2] == last[0];
    assert s[i + 1..i + 3] == SEP;
    forall j | i + 1 < j <= |s| ensures !OccursAt(s, SEP, j) {
      if j + 2 <= |s| {
        assert s[j..j + 2] == last[j - i - 2..j - i];
        assert !OccursAt(last, SEP, j - i - 2);
      }
    }
    FindLastIs(s, i + 1);
    assert s[..i + 1] == front + ":" && s[i + 3..] == last[1..];
  }

  /** A numeral has no colon, and neither has it with one appended a numeral's form. */
  lemma NumeralHasNoColon(g: string)
    requires ParseI64(g).Some?
    ensures g != "" && Avoids(g, ':') && ParseI64(g + ":").None?
  {
    var digits := if g[0] == '-' || g[0] == '+' then g[1..] else g;
    assert AllDigits(digits);
    forall i | 0 <= i < |g| ensures g[i] != ':' {
      if i > 0 { assert g[i] == g[1..][i - 1]; }
    }
    var longer := g + ":";
    var longerDigits := if longer[0] == '-' || longer[0] == '+' then longer[1..] else longer;
    assert longerDigits[|longerDigits| - 1] == ':';
  }

  /** A token with at most one colon, at its end, holds no separator. */
  lemma OneColonIsSolid(g: string)
    requires Avoids(g, ':')
    ensures Solid(g) && Solid(g + ":")
  {
    forall j: int | j >= 0 ensures !OccursAt(g, SEP, j) && !OccursAt(g + ":", SEP, j) {
      if j + 2 <= |g + ":"| {
        assert (g + ":")[j..j + 2][0] == g[j];
        assert j + 2 <= |g| ==> g[j..j + 2][0] == g[j];
      }
    }
  }

  function LastNode(lineage: InstanceLineage): string
    requires |lineage.nodeIds| > 0
  {
    lineage.nodeIds[|lineage.nodeIds| - 1]
  }

  /** The identifier of all pairs but the last. */
  function Shortened(id: string): string
    requires |Split(id, SEP)| >= 3
  {
    var tokens := Split(id, SEP);
    Join(tokens[..|tokens| - 2], SEP)
  }

  /** The lineage holds the generations and nodes of the token pairs. */
  predicate Holds(lineage: InstanceLineage, tokens: seq<string>) {
    && |tokens| == 2 * PairCount(tokens) + 1
    && |lineage.generations| == |lineage.nodeIds| == PairCount(tokens)
    && forall k: nat :: k < PairCount(tokens) ==>
         PairOk(tokens, k) && lineage.generations[k] == GenerationAt(tokens, k)
           && lineage.nodeIds[k] == NodeToken(tokens, k)
  }

  lemma ParsedHolds(id: string)
    requires Accepts(id)
    ensures Holds(Parsed(id).value, Split(id, SEP)) && Parsed(id).value.instanceId == id
  {
    hide Split, ParseI64;
  }

  lemma LastPairOf(tokens: seq<string>, lineage: InstanceLineage)
    requires Holds(lineage, tokens) && |tokens| >= 3
    ensures |lineage.generations| == |lineage.nodeIds| > 0
    ensures LastNode(lineage) == tokens[|tokens| - 1] != ""
    ensures ParseI64(tokens[|tokens| - 2]) == Some(lineage.generations[|lineage.generations| - 1])
  {
    hide ParseI64;
    var k: nat := PairCount(tokens) - 1;
    assert PairOk(tokens, k);
  }

  lemma AllButLastPair(tokens: seq<string>, lineage: InstanceLineage, shorter: InstanceLineage)
    requires Holds(lineage, tokens) && |tokens| >= 3 && Holds(shorter, tokens[..|tokens| - 2])
    ensures |lineage.generations| == |lineage.nodeIds| > 0
    ensures shorter.generations == lineage.generations[..|lineage.generations| - 1]
    ensures shorter.nodeIds == lineage.nodeIds[..|lineage.nodeIds| - 1]
  {
    hide ParseI64;
    var less := tokens[..|tokens| - 2];
    forall k: nat | k < PairCount(less) ensures GenerationAt(less, k) == GenerationAt(tokens, k)
      && NodeToken(less, k) == NodeToken(tokens, k) {}
  }

  /** What is left after the last pair is accepted too, and parses to all pairs but the last. */
  lemma ShortenedParses(id: string)
    requires Accepts(id) && |Split(id, SEP)| >= 3
    ensures var lineage, n := Parsed(id).value, |Parsed(id).value.nodeIds| - 1;
            n >= 0 && |lineage.generations| == n + 1 &&
            Parsed(Shortened(id)) ==
              Some(InstanceLineage(Shortened(id), lineage.generations[..n], lineage.nodeIds[..n]))
  {
    hide Split, Shortened, Parsed, Accepts, Holds;
    var short := Shortened(id);
    ShortSplit(id);
    ParsedHolds(id);
    ParsedHolds(short);
    AllButLastPair(Split(id, SEP), Parsed(id).value, Parsed(short).value);
  }

  lemma ShortSplit(id: string)
    requires Accepts(id) && |Split(id, SEP)| >= 3
    ensures Accepts(Shortened(id)) && Split(Shortened(id), SEP) == Split(id, SEP)[..|Split(id, SEP)| - 2]
  {
    hide Split, Join, PairsOk;
    SplitPrefix(id, |Split(id, SEP)| - 2);
    ShortenedAccepts(Split(id, SEP), Shortened(id));
  }

  lemma ShortenedAccepts(tokens: seq<string>, short: string)
    requires |tokens| >= 3 && |tokens| % 2 == 1 && tokens[0] != "" && PairsOk(tokens)
    requires Split(short, SEP) == tokens[..|tokens| - 2]
    ensures Accepts(short)
  {
    hide Split, ParseI64;
    var less := Split(short, SEP);
    forall k: nat | k < PairCount(less) ensures PairOk(less, k) {
      assert PairOk(tokens, k);
    }
  }

  lemma ParentOfCut(lineage: InstanceLineage, short: string, gen: string, node: string)
    requires lineage.instanceId == short + SEP + gen + SEP + node && |lineage.nodeIds| > 0
    requires ParseI64(gen).Some? && node != "" && Solid(node)
    ensures ParentOf(lineage) == if node[0] == ':' then None else Some(Scoped(short, ParseI64(gen).value))
  {
    NumeralHasNoColon(gen);
    OneColonIsSolid(gen);
    hide ParseI64, Solid, RSplitOnce;
    if node[0] == ':' {
      RSplitColonToken(short + SEP + gen, node);
      RSplitToken(short, gen + ":");
      assert short + SEP + gen + ":" == short + SEP + (gen + ":");
    } else {
      RSplitToken(short + SEP + gen, node);
      RSplitToken(short, gen);
    }
  }

  /** On every accepted identifier with at least one pair, `parent` drops exactly the last
      pair if and only if the last node does not begin with a colon; otherwise it finds none. */
  lemma ParentExactly(id: string)
    requires Accepts(id) && |Split(id, SEP)| >= 3
    ensures var lineage := Parsed(id).value;
            |lineage.nodeIds| > 0 && LastNode(lineage) != "" && |lineage.generations| > 0 &&
            Parent(id) == if LastNode(lineage)[0] == ':' then None
                          else Some(Scoped(Shortened(id), lineage.generations[|lineage.generations| - 1]))
  {
    var tokens, lineage := Split(id, SEP), Parsed(id).value;
    ParsedHolds(id);
    LastIsSolid(id);
    CutLastPair(id);
    hide Split, Join, Parsed, Accepts;
    LastPairOf(tokens, lineage);
    hide Holds;
    ParentOfCut(lineage, Shortened(id), tokens[|tokens| - 2], tokens[|tokens| - 1]);
  }

  lemma OneColonToken()
    ensures Split(":b", SEP) == [":b"] && ParseI64("1") == Some(1)
  {
    assert forall j :: 0 <= j ==> !OccursAt(":b", SEP, j) by { assert ":b"[0..2][1] == 'b'; }
    assert DigitsValue("1") == 1;
  }

  /** The failing case exists: `parse` accepts this identifier with one pair, and `parent` finds
      no parent. */
  lemma ColonNodeHasNoParent()
    ensures Accepts("a::1:::b") && Parsed("a::1:::b").value.nodeIds == [":b"] && Parent("a::1:::b") == None
  {
    hide Split, ParseI64, FindFrom, OccursAt;
    var id := "a" + SEP + ("1" + SEP + ":b");
    assert id == "a::1:::b";
    SplitFirstToken("a", "1" + SEP + ":b", SEP, ':');
    SplitFirstToken("1", ":b", SEP, ':');
    OneColonToken();
    var tokens := Split(id, SEP);
    assert tokens == ["a", "1", ":b"];
    assert PairOk(tokens, 0);
    ParsedHolds(id);
    ParentExactly(id);
  }
}
