/**
 * Go's `strings.Split(s, " ")` and `strings.Join(parts, " ")`, the only two
 * string operations the command parsers use. Splitting is on ONE space: runs
 * of spaces produce empty pieces, and the result is never empty (`""` splits
 * to `[""]`).
 */
module GoStrings {

  const Space: char := ' '

  /** `strings.Split(s, " ")`. */
  function Split(s: string): (parts: seq<string>)
    ensures |parts| >= 1
    ensures forall i :: 0 <= i < |parts| ==> Space !in parts[i]
    decreases |s|
  {
    if s == [] then [""]
    else if s[0] == Space then [""] + Split(s[1..])
    else
      var rest := Split(s[1..]);
      [[s[0]] + rest[0]] + rest[1..]
  }

  /** `strings.Join(parts, " ")`. */
  function Join(parts: seq<string>): string
  {
    if parts == [] then ""
    else if |parts| == 1 then parts[0]
    else parts[0] + [Space] + Join(parts[1..])
  }

  /** The position of the first space in `s`. */
  function FirstSpace(s: string): (i: nat)
    requires Space in s
    ensures i < |s| && s[i] == Space
    ensures Space !in s[..i]
  {
    if s[0] == Space then 0
    else
      assert Space in s[1..] by {
        var k :| 0 <= k < |s| && s[k] == Space;
        assert s[1..][k - 1] == Space;
      }
      var k := FirstSpace(s[1..]);
      assert s[..k + 1] == [s[0]] + s[1..][..k];
      k + 1
  }

  /** The text before the first space, or all of `s` when it has none. */
  function Before(s: string): string
  {
    if Space in s then s[..FirstSpace(s)] else s
  }

  /** The exact text after the first space. */
  function After(s: string): string
    requires Space in s
  {
    s[FirstSpace(s) + 1..]
  }

  /** The number of spaces in `s`. */
  function Spaces(s: string): nat
  {
    multiset(s)[Space]
  }

  lemma FirstSpaceOfWord(p: string, rest: string)
    requires Space !in p
    ensures Space in p + [Space] + rest
    ensures FirstSpace(p + [Space] + rest) == |p|
  {
    var s := p + [Space] + rest;
    assert s[|p|] == Space;
  }

  /** A string without a space is a single piece. */
  lemma {:induction false} SplitNoSpace(s: string)
    requires Space !in s
    ensures Split(s) == [s]
    decreases |s|
  {
    if s != [] {
      SplitNoSpace(s[1..]);
      assert [s[0]] + s[1..] == s;
    }
  }

  /** Splitting peels off the text before the first space and splits the rest. */
  lemma {:induction false} SplitAtFirstSpace(s: string)
    requires Space in s
    ensures Split(s) == [s[..FirstSpace(s)]] + Split(After(s))
    decreases |s|
  {
    if s[0] != Space {
      var t := s[1..];
      assert Space in t by {
        var k :| 0 <= k < |s| && s[k] == Space;
        assert t[k - 1] == Space;
      }
      SplitAtFirstSpace(t);
      var k := FirstSpace(t);
      assert FirstSpace(s) == k + 1;
      assert s[..k + 1] == [s[0]] + t[..k];
      assert After(s) == After(t);
    }
  }

  /** The pieces are the first word followed by the pieces of what comes after it. */
  lemma SplitShape(s: string)
    ensures Split(s)[0] == Before(s)
    ensures Space !in s ==> Split(s) == [s]
    ensures Space in s ==> Split(s)[1..] == Split(After(s))
  {
    if Space in s {
      SplitAtFirstSpace(s);
    } else {
      SplitNoSpace(s);
    }
  }

  /** Join undoes Split: no character of the original text is lost or added. */
  lemma {:induction false} JoinSplit(s: string)
    ensures Join(Split(s)) == s
    decreases |s|
  {
    if s == [] {
    } else if s[0] == Space {
      JoinSplit(s[1..]);
      assert Split(s) == [""] + Split(s[1..]);
      assert ([""] + Split(s[1..]))[1..] == Split(s[1..]);
      assert [s[0]] + s[1..] == s;
    } else {
      var rest := Split(s[1..]);
      JoinSplit(s[1..]);
      var parts := [[s[0]] + rest[0]] + rest[1..];
      assert Split(s) == parts;
      if |rest| == 1 {
        assert Join(parts) == [s[0]] + rest[0];
        assert [s[0]] + s[1..] == s;
      } else {
        assert parts[1..] == rest[1..];
        assert Join(parts) == [s[0]] + rest[0] + [Space] + Join(rest[1..]);
        assert Join(rest) == rest[0] + [Space] + Join(rest[1..]);
        assert [s[0]] + s[1..] == s;
      }
    }
  }

  /** Split undoes Join for space-free pieces. */
  lemma {:induction false} SplitJoin(parts: seq<string>)
    requires |parts| >= 1
    requires forall i :: 0 <= i < |parts| ==> Space !in parts[i]
    ensures Split(Join(parts)) == parts
    decreases |parts|
  {
    if |parts| == 1 {
      SplitNoSpace(parts[0]);
    } else {
      var tail := Join(parts[1..]);
      FirstSpaceOfWord(parts[0], tail);
      var s := parts[0] + [Space] + tail;
      SplitAtFirstSpace(s);
      assert s[..|parts[0]|] == parts[0];
      assert After(s) == tail;
      SplitJoin(parts[1..]);
      assert parts == [parts[0]] + parts[1..];
    }
  }

  /** There is one more piece than there are spaces. */
  lemma {:induction false} SplitCount(s: string)
    ensures |Split(s)| == Spaces(s) + 1
    decreases |s|
  {
    if s != [] {
      SplitCount(s[1..]);
      assert s == [s[0]] + s[1..];
      assert multiset(s) == multiset([s[0]]) + multiset(s[1..]);
    }
  }

  /** The split/join facts the parsers rely on, stated on the raw text. */
  lemma SplitJoinTail(s: string)
    requires Space in s
    ensures |Split(s)| >= 2
    ensures Split(s)[1] == Before(After(s))
    ensures Join(Split(s)[1..]) == After(s)
    ensures |Split(s)| == 2 <==> Space !in After(s)
    ensures Space in After(s) ==> Join(Split(s)[2..]) == After(After(s))
  {
    SplitShape(s);
    var a := After(s);
    SplitShape(a);
    JoinSplit(a);
    if Space in a {
      JoinSplit(After(a));
      assert Split(s)[2..] == Split(s)[1..][1..];
    }
  }
}
