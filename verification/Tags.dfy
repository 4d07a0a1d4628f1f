/** Annotation tags (pkg/models/tags.go): parsing "key:value" pairs and printing them again. */
module Tags {
  import opened Prelude

  datatype Tag = Tag(key: string, value: string)

  // ---------------------------------------------------------------- strings

  function TrimLeft(s: string): string {
    if s != "" && s[0] == ' ' then TrimLeft(s[1..]) else s
  }

  function TrimRight(s: string): string {
    if s != "" && s[|s| - 1] == ' ' then TrimRight(s[..|s| - 1]) else s
  }

  function Trim(s: string): string {
    TrimRight(TrimLeft(s))
  }

  /** Where the first colon is, or the length if there is none. */
  function FirstColon(s: string): (i: nat)
    ensures i <= |s| && (forall k :: 0 <= k < i ==> s[k] != ':') && (i < |s| ==> s[i] == ':')
  {
    if s == "" || s[0] == ':' then 0 else 1 + FirstColon(s[1..])
  }

  /** What is before the first colon and what is between the first and the second; None without a colon. */
  function SplitPair(s: string): Option<(string, string)> {
    var i := FirstColon(s);
    if i == |s| then None
    else
      var rest := s[i + 1..];
      Some((s[..i], rest[..FirstColon(rest)]))
  }

  ghost predicate Trimmed(s: string) {
    s == "" || (s[0] != ' ' && s[|s| - 1] != ' ')
  }

  ghost predicate AllSpaces(s: string) {
    forall i :: 0 <= i < |s| ==> s[i] == ' '
  }

  lemma {:induction false} TrimLeftIs(s: string) returns (before: string)
    ensures s == before + TrimLeft(s) && AllSpaces(before) && (TrimLeft(s) != "" ==> TrimLeft(s)[0] != ' ')
  {
    if s != "" && s[0] == ' ' {
      var rest := TrimLeftIs(s[1..]);
      before := " " + rest;
      assert s == " " + s[1..];
    } else {
      before := "";
    }
  }

  lemma {:induction false} TrimRightIs(s: string) returns (after: string)
    ensures s == TrimRight(s) + after && AllSpaces(after) && (TrimRight(s) != "" ==> TrimRight(s)[|TrimRight(s)| - 1] != ' ')
  {
    if s != "" && s[|s| - 1] == ' ' {
      var rest := TrimRightIs(s[..|s| - 1]);
      after := rest + " ";
      assert s == s[..|s| - 1] + " ";
    } else {
      after := "";
    }
  }

  /** Trimming takes off spaces at both ends, and all of them. */
  lemma TrimIs(s: string) returns (before: string, after: string)
    ensures s == before + Trim(s) + after && AllSpaces(before) && AllSpaces(after) && Trimmed(Trim(s))
  {
    before := TrimLeftIs(s);
    after := TrimRightIs(TrimLeft(s));
    assert s == before + (Trim(s) + after);
  }

  lemma TrimOfTrimmed(s: string)
    requires Trimmed(s)
    ensures Trim(s) == s
  {
  }

  lemma TrimKeepsOut(s: string, c: char)
    requires c !in s
    ensures c !in Trim(s)
  {
    var before, after := TrimIs(s);
    forall i | 0 <= i < |Trim(s)|
      ensures Trim(s)[i] != c
    {
      assert s[|before| + i] == Trim(s)[i];
    }
  }

  lemma FirstColonOf(a: string, rest: string)
    requires ':' !in a && (rest == "" || rest[0] == ':')
    ensures FirstColon(a + rest) == |a|
  {
    assert forall k :: 0 <= k < |a| ==> (a + rest)[k] in a;
    assert rest != "" ==> (a + rest)[|a|] == ':';
  }

  // ---------------------------------------------------------------- parsing and printing

  function ParsePair(s: string): Tag {
    match SplitPair(s)
    case None => Tag(Trim(s), "")
    case Some((k, v)) => Tag(Trim(k), Trim(v))
  }

  /** The key is before the first colon, the value between it and the second; without a colon all is key. */
  lemma ParsePairIs(key: string, value: string, more: string)
    requires ':' !in key && ':' !in value && (more == "" || more[0] == ':')
    ensures ParsePair(key + ":" + value + more) == Tag(Trim(key), Trim(value))
    ensures ParsePair(key) == Tag(Trim(key), "")
  {
    var s := key + ":" + value + more;
    assert s == key + (":" + value + more);
    FirstColonOf(key, ":" + value + more);
    assert s[..|key|] == key && s[|key| + 1..] == value + more;
    FirstColonOf(value, more);
    assert (value + more)[..|value|] == value;
    FirstColonOf(key, "");
    assert key + "" == key;
  }

  /** The tags of a list of pairs, without empty keys and without repetitions. */
  function Parsed(pairs: seq<string>): seq<Tag> {
    if pairs == [] then []
    else
      var before := Parsed(pairs[..|pairs| - 1]);
      var tag := ParsePair(pairs[|pairs| - 1]);
      if tag.key == "" || tag in before then before else before + [tag]
  }

  function Printed(t: Tag): string {
    if t.value != "" then t.key + ":" + t.value else t.key
  }

  function Joined(tags: seq<Tag>): seq<string> {
    seq(|tags|, i requires 0 <= i < |tags| => Printed(tags[i]))
  }

  method ContainsTag(existingTags: seq<Tag>, tag: Tag) returns (found: bool)
    ensures found <==> tag in existingTags
  {
    for i := 0 to |existingTags|
      invariant tag !in existingTags[..i]
    {
      if existingTags[i].key == tag.key && existingTags[i].value == tag.value {
        return true;
      }
    }
    return false;
  }

  method ParseTagPairs(tagPairs: seq<string>) returns (tags: seq<Tag>)
    ensures tags == Parsed(tagPairs)
  {
    tags := [];
    for i := 0 to |tagPairs|
      invariant tags == Parsed(tagPairs[..i])
    {
      assert tagPairs[..i + 1][..i] == tagPairs[..i];
      var tag := ParsePair(tagPairs[i]);
      var known := ContainsTag(tags, tag);
      if tag.key == "" || known {
        continue;
      }
      tags := tags + [tag];
    }
    assert tagPairs[..|tagPairs|] == tagPairs;
  }

  method JoinTagPairs(tags: seq<Tag>) returns (tagPairs: seq<string>)
    ensures tagPairs == Joined(tags)
    ensures |tagPairs| == |tags|
    ensures forall i :: 0 <= i < |tags| ==>
              if tags[i].value == "" then tagPairs[i] == tags[i].key
              else tagPairs[i] == tags[i].key + ":" + tags[i].value
  {
    tagPairs := [];
    for i := 0 to |tags|
      invariant |tagPairs| == i && forall k :: 0 <= k < i ==> tagPairs[k] == Printed(tags[k])
    {
      if tags[i].value != "" {
        tagPairs := tagPairs + [tags[i].key + ":" + tags[i].value];
      } else {
        tagPairs := tagPairs + [tags[i].key];
      }
    }
  }

  // ---------------------------------------------------------------- round trips

  /** A tag that can come out of parsing. */
  ghost predicate Proper(t: Tag) {
    t.key != "" && Trimmed(t.key) && Trimmed(t.value) && ':' !in t.key && ':' !in t.value
  }

  ghost predicate ProperList(tags: seq<Tag>) {
    Distinct(tags) && forall t :: t in tags ==> Proper(t)
  }

  lemma ParsePairIsProper(s: string)
    ensures ParsePair(s).key != "" ==> Proper(ParsePair(s))
  {
    var i := FirstColon(s);
    if i == |s| {
      var _, _ := TrimIs(s);
      TrimKeepsOut(s, ':');
    } else {
      var k := s[..i];
      var rest := s[i + 1..];
      var v := rest[..FirstColon(rest)];
      var _, _ := TrimIs(k);
      var _, _ := TrimIs(v);
      TrimKeepsOut(k, ':');
      TrimKeepsOut(v, ':');
    }
  }

  /** Parsing yields proper tags, each once. */
  lemma {:induction false} ParsedIsProper(pairs: seq<string>)
    ensures ProperList(Parsed(pairs))
  {
    if pairs != [] {
      ParsedIsProper(pairs[..|pairs| - 1]);
      ParsePairIsProper(pairs[|pairs| - 1]);
    }
  }

  /** A proper tag survives printing and parsing. */
  lemma PairRoundTrip(t: Tag)
    requires Proper(t)
    ensures ParsePair(Printed(t)) == t
  {
    TrimOfTrimmed(t.key);
    TrimOfTrimmed(t.value);
    if t.value != "" {
      var s := t.key + ":" + t.value;
      assert s == t.key + (":" + t.value);
      FirstColonOf(t.key, ":" + t.value);
      assert s[..|t.key|] == t.key && s[|t.key| + 1..] == t.value;
      FirstColonOf(t.value, "");
      assert t.value + "" == t.value;
    } else {
      FirstColonOf(t.key, "");
      assert t.key + "" == t.key;
    }
  }

  lemma JoinedSnoc(front: seq<Tag>, last: Tag)
    ensures Joined(front + [last]) == Joined(front) + [Printed(last)]
  {
  }

  lemma ParsedSnoc(pairs: seq<string>, s: string)
    ensures var before := Parsed(pairs); var tag := ParsePair(s);
            Parsed(pairs + [s]) == if tag.key == "" || tag in before then before else before + [tag]
  {
    assert (pairs + [s])[..|pairs|] == pairs;
  }

  lemma {:induction false} ListRoundTrip(tags: seq<Tag>)
    requires ProperList(tags)
    ensures Parsed(Joined(tags)) == tags
  {
    if tags != [] {
      var front := tags[..|tags| - 1];
      var last := tags[|tags| - 1];
      assert tags == front + [last] && last !in front;
      ListRoundTrip(front);
      PairRoundTrip(last);
      JoinedSnoc(front, last);
      ParsedSnoc(Joined(front), Printed(last));
    }
  }

  /** Parsing, printing and parsing again gives the same tags, for every list of strings. */
  lemma ParsePrintParse(pairs: seq<string>)
    ensures Parsed(Joined(Parsed(pairs))) == Parsed(pairs)
  {
    ParsedIsProper(pairs);
    ListRoundTrip(Parsed(pairs));
  }

  /** The lists of tags that survive a round trip are exactly the proper ones. */
  lemma RoundTripIffProper(tags: seq<Tag>)
    ensures Parsed(Joined(tags)) == tags <==> ProperList(tags)
  {
    if Parsed(Joined(tags)) == tags {
      ParsedIsProper(Joined(tags));
    } else if ProperList(tags) {
      ListRoundTrip(tags);
    }
  }

  /** A parsed tag comes from some pair, and every pair with a key is represented. */
  lemma {:induction false} NothingLostNothingMadeUp(pairs: seq<string>, t: Tag)
    ensures t in Parsed(pairs) <==> t.key != "" && exists i :: 0 <= i < |pairs| && ParsePair(pairs[i]) == t
  {
    if pairs != [] {
      var front := pairs[..|pairs| - 1];
      NothingLostNothingMadeUp(front, t);
      if i :| 0 <= i < |front| && ParsePair(front[i]) == t {
        assert pairs[i] == front[i];
      }
      if i :| 0 <= i < |pairs| && ParsePair(pairs[i]) == t {
        assert i < |front| ==> front[i] == pairs[i];
      }
    }
  }

  /** The tags of the first pairs come first. */
  lemma {:induction false} PrefixFirst(pairs: seq<string>, k: nat)
    requires k <= |pairs|
    ensures Parsed(pairs[..k]) <= Parsed(pairs)
  {
    if k == |pairs| {
      assert pairs[..k] == pairs;
    } else {
      assert pairs[..|pairs| - 1][..k] == pairs[..k];
      PrefixFirst(pairs[..|pairs| - 1], k);
    }
  }
}
