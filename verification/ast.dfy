/**
 * The parse tree produced by the external mpc parser, as an abstract node:
 * a tag such as "expr|number|regex", the matched text, and ordered children.
 */
module Ast {

  datatype Node = Node(tag: string, contents: string, children: seq<Node>)

  /** `strstr(s, sub) != NULL`: sub occurs somewhere in s. */
  predicate Contains(s: string, sub: string): (r: bool)
    ensures |sub| == 0 ==> r
    ensures |sub| > |s| ==> !r
  {
    sub <= s || (|s| > 0 && Contains(s[1..], sub))
  }

  /** An occurrence of sub in s at position i. */
  predicate OccursAt(s: string, sub: string, i: nat)
  {
    i + |sub| <= |s| && s[i..i + |sub|] == sub
  }

  /** `strstr` finds sub exactly when sub occurs at some position of s. */
  lemma {:induction false} ContainsOccurrence(s: string, sub: string)
    ensures Contains(s, sub) <==> exists i: nat :: OccursAt(s, sub, i)
    decreases |s|
  {
    if sub <= s {
      assert OccursAt(s, sub, 0);
    } else if |s| > 0 {
      ContainsOccurrence(s[1..], sub);
      if exists i: nat :: OccursAt(s[1..], sub, i) {
        var i: nat :| OccursAt(s[1..], sub, i);
        assert s[i + 1..i + 1 + |sub|] == s[1..][i..i + |sub|];
        assert OccursAt(s, sub, i + 1);
      }
      if exists i: nat :: OccursAt(s, sub, i) {
        var i: nat :| OccursAt(s, sub, i);
        assert i != 0;
        assert s[1..][i - 1..i - 1 + |sub|] == s[i..i + |sub|];
        assert OccursAt(s[1..], sub, i - 1);
      }
    }
  }

  /** A text lacking one of sub's characters does not contain sub. */
  lemma {:induction false} MissingCharNotContains(s: string, sub: string, c: char)
    requires c in sub && c !in s
    ensures !Contains(s, sub)
    decreases |s|
  {
    if |s| > 0 {
      MissingCharNotContains(s[1..], sub, c);
    }
  }
}
