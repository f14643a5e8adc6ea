/** Matching event topics against wildcard patterns. */
module Topics {

  const ANY_ONE := "*"
  const ANY_MANY := "**"

  /** `strings.Split(s, ".")`. */
  function SplitDots(s: string): (parts: seq<string>)
    ensures |parts| >= 1
  {
    if s == "" then [""]
    else
      var rest := SplitDots(s[1..]);
      if s[0] == '.' then [""] + rest else [[s[0]] + rest[0]] + rest[1..]
  }

  function JoinDots(parts: seq<string>): string
    requires parts != []
  {
    if |parts| == 1 then parts[0] else parts[0] + "." + JoinDots(parts[1..])
  }

  lemma {:induction false} JoinUndoesSplit(s: string)
    ensures JoinDots(SplitDots(s)) == s
    ensures forall i :: 0 <= i < |SplitDots(s)| ==> '.' !in SplitDots(s)[i]
  {
    if s != "" {
      var rest := SplitDots(s[1..]);
      JoinUndoesSplit(s[1..]);
      assert s == [s[0]] + s[1..];
      if s[0] == '.' {
        assert ([""] + rest)[1..] == rest;
        assert JoinDots([""] + rest) == "." + JoinDots(rest);
      } else {
        var parts := [[s[0]] + rest[0]] + rest[1..];
        assert parts[1..] == rest[1..];
        if |rest| > 1 {
          assert JoinDots(parts) == ([s[0]] + rest[0]) + "." + JoinDots(rest[1..]);
        }
      }
    }
  }

  /** Distinct topics have distinct segment lists. */
  lemma SplitInjective(a: string, b: string)
    requires SplitDots(a) == SplitDots(b)
    ensures a == b
  {
    JoinUndoesSplit(a);
    JoinUndoesSplit(b);
  }

  predicate AllMany(pattern: seq<string>) {
    forall i :: 0 <= i < |pattern| ==> pattern[i] == ANY_MANY
  }

  predicate MatchParts(topic: seq<string>, pattern: seq<string>)
    decreases |topic| + |pattern|
  {
    if topic == [] && pattern == [] then true
    else if pattern == [] then false
    else if topic == [] then AllMany(pattern)
    else if pattern[0] == ANY_MANY then MatchParts(topic, pattern[1..]) || MatchParts(topic[1..], pattern)
    else if pattern[0] == ANY_ONE then MatchParts(topic[1..], pattern[1..])
    else if pattern[0] == topic[0] then MatchParts(topic[1..], pattern[1..])
    else false
  }

  predicate MatchTopic(topic: string, pattern: string) {
    if pattern == "" then topic == ""
    else if pattern == ANY_MANY then true
    else MatchParts(SplitDots(topic), SplitDots(pattern))
  }

  // ----- what matching means -----

  /** The topics segments one pattern segment may stand for: any number, exactly one, or itself. */
  predicate Fits(segment: string, block: seq<string>) {
    segment == "**" || (|block| == 1 && (segment == "*" || block[0] == segment))
  }

  predicate FitsAll(pattern: seq<string>, blocks: seq<seq<string>>) {
    |blocks| == |pattern| && forall i :: 0 <= i < |pattern| ==> Fits(pattern[i], blocks[i])
  }

  function Concat(blocks: seq<seq<string>>): seq<string> {
    if blocks == [] then [] else blocks[0] + Concat(blocks[1..])
  }

  /** The topic is cut into consecutive blocks, one for each pattern segment. */
  ghost predicate Decomposes(topic: seq<string>, pattern: seq<string>, blocks: seq<seq<string>>) {
    FitsAll(pattern, blocks) && Concat(blocks) == topic
  }

  lemma PrependBlock(block: seq<string>, topic: seq<string>, pattern: seq<string>, blocks: seq<seq<string>>)
    requires pattern != [] && Fits(pattern[0], block) && Decomposes(topic, pattern[1..], blocks)
    ensures Decomposes(block + topic, pattern, [block] + blocks)
  {
    assert ([block] + blocks)[1..] == blocks;
    forall i | 0 <= i < |pattern| ensures Fits(pattern[i], ([block] + blocks)[i]) {
      if i > 0 { assert Fits(pattern[1..][i - 1], blocks[i - 1]); }
    }
  }

  lemma WidenBlock(x: string, topic: seq<string>, pattern: seq<string>, blocks: seq<seq<string>>)
    requires pattern != [] && pattern[0] == ANY_MANY && Decomposes(topic, pattern, blocks)
    ensures Decomposes([x] + topic, pattern, [[x] + blocks[0]] + blocks[1..])
  {
    var wider := [[x] + blocks[0]] + blocks[1..];
    assert wider[1..] == blocks[1..];
    assert [x] + (blocks[0] + Concat(blocks[1..])) == ([x] + blocks[0]) + Concat(blocks[1..]);
  }

  lemma {:induction false} EmptyTopic(pattern: seq<string>)
    requires AllMany(pattern)
    ensures exists blocks :: Decomposes([], pattern, blocks)
  {
    if pattern == [] {
      assert Decomposes([], [], []);
    } else {
      EmptyTopic(pattern[1..]);
      var blocks :| Decomposes([], pattern[1..], blocks);
      var none: seq<string> := [];
      PrependBlock(none, none, pattern, blocks);
      assert none + none == none;
      assert Decomposes([], pattern, [[]] + blocks);
    }
  }

  lemma {:induction false} MatchDecomposes(topic: seq<string>, pattern: seq<string>)
    requires MatchParts(topic, pattern)
    ensures exists blocks :: Decomposes(topic, pattern, blocks)
    decreases |topic| + |pattern|
  {
    hide Fits, Concat;
    if topic == [] {
      EmptyTopic(pattern);
    } else {
      assert topic == [topic[0]] + topic[1..];
      if pattern[0] == ANY_MANY && MatchParts(topic, pattern[1..]) {
        MatchDecomposes(topic, pattern[1..]);
        var blocks :| Decomposes(topic, pattern[1..], blocks);
        PrependBlock([], topic, pattern, blocks);
        assert [] + topic == topic;
      } else if pattern[0] == ANY_MANY {
        MatchDecomposes(topic[1..], pattern);
        var blocks :| Decomposes(topic[1..], pattern, blocks);
        WidenBlock(topic[0], topic[1..], pattern, blocks);
        assert Decomposes(topic, pattern, [[topic[0]] + blocks[0]] + blocks[1..]);
      } else {
        MatchDecomposes(topic[1..], pattern[1..]);
        var blocks :| Decomposes(topic[1..], pattern[1..], blocks);
        PrependBlock([topic[0]], topic[1..], pattern, blocks);
      }
    }
  }

  lemma {:induction false} DecomposedMatches(topic: seq<string>, pattern: seq<string>, blocks: seq<seq<string>>)
    requires Decomposes(topic, pattern, blocks)
    ensures MatchParts(topic, pattern)
    decreases |topic| + |pattern|
  {
    if pattern != [] {
      var block, rest := blocks[0], Concat(blocks[1..]);
      assert Fits(pattern[0], block);
      if block == [] {
        assert topic == rest;
        DecomposedMatches(topic, pattern[1..], blocks[1..]);
        if topic == [] { OnlyMany(pattern); }
      } else {
        assert topic[0] == block[0];
        assert topic[1..] == block[1..] + rest;
        if pattern[0] == ANY_MANY {
          var shorter := [block[1..]] + blocks[1..];
          assert shorter[1..] == blocks[1..];
          assert Decomposes(topic[1..], pattern, shorter);
          DecomposedMatches(topic[1..], pattern, shorter);
        } else {
          assert topic[1..] == rest;
          DecomposedMatches(topic[1..], pattern[1..], blocks[1..]);
        }
      }
    }
  }

  lemma OnlyMany(pattern: seq<string>)
    requires pattern != [] && pattern[0] == ANY_MANY && MatchParts([], pattern[1..])
    ensures AllMany(pattern)
  {
    forall i | 0 < i < |pattern| ensures pattern[i] == ANY_MANY {
      assert pattern[1..][i - 1] == pattern[i];
    }
  }

  /** Matching holds exactly when the topic decomposes into blocks that fit the pattern. */
  lemma MatchIff(topic: seq<string>, pattern: seq<string>)
    ensures MatchParts(topic, pattern) <==> exists blocks :: Decomposes(topic, pattern, blocks)
  {
    if MatchParts(topic, pattern) { MatchDecomposes(topic, pattern); }
    if blocks :| Decomposes(topic, pattern, blocks) { DecomposedMatches(topic, pattern, blocks); }
  }

  lemma {:induction false} SelfMatch(parts: seq<string>)
    ensures MatchParts(parts, parts)
  {
    if parts != [] {
      SelfMatch(parts[1..]);
      if parts[0] == ANY_MANY { ManyAbsorbs(parts[1..], parts); }
    }
  }

  /** A leading `**` takes the empty block or more: if the rest matches after it, the whole does. */
  lemma ManyAbsorbs(topic: seq<string>, pattern: seq<string>)
    requires pattern != [] && pattern[0] == ANY_MANY && MatchParts(topic, pattern[1..])
    ensures MatchParts(topic, pattern)
  {
    if topic == [] { OnlyMany(pattern); }
  }

  /** The two shortcuts for the empty pattern and `**` agree with the segment-wise rule, and every topic matches itself. */
  lemma MatchTopicIff(topic: string, pattern: string)
    ensures MatchTopic(topic, pattern) <==> exists blocks :: Decomposes(SplitDots(topic), SplitDots(pattern), blocks)
    ensures MatchTopic(topic, topic)
  {
    hide Decomposes;
    ShortcutsAgree(topic, pattern);
    ShortcutsAgree(topic, topic);
    SelfMatch(SplitDots(topic));
    MatchIff(SplitDots(topic), SplitDots(pattern));
  }

  lemma ShortcutsAgree(topic: string, pattern: string)
    ensures MatchTopic(topic, pattern) <==> MatchParts(SplitDots(topic), SplitDots(pattern))
  {
    if pattern == "" {
      assert SplitDots("") == [""];
      if SplitDots(topic) == [""] { SplitInjective(topic, ""); }
    } else if pattern == ANY_MANY {
      SplitMany();
      assert pattern == "**" && SplitDots(pattern) == [ANY_MANY];
      ManyMatchesAll(SplitDots(topic));
    }
  }

  lemma SplitMany()
    ensures SplitDots("**") == ["**"]
  {
    assert "**"[1..] == "*" && "*"[1..] == "";
    assert SplitDots("") == [""];
    assert SplitDots("*") == [['*'] + ""] + [""][1..];
    assert ['*'] + "" == "*" && [""][1..] == [];
    assert SplitDots("**") == [['*'] + "*"] + ["*"][1..];
    assert ['*'] + "*" == "**" && ["*"][1..] == [];
  }

  lemma {:induction false} ManyMatchesAll(topic: seq<string>)
    ensures MatchParts(topic, [ANY_MANY])
  {
    if topic != [] { ManyMatchesAll(topic[1..]); }
  }
}
