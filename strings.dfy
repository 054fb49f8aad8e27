/** String operations the moderation rules are written with: ASCII lower-casing,
    global deletion of one character (`replace(/c/g, "")`), `startsWith` and
    `includes`. */
module Strings {

  predicate IsUpper(c: char) { 'A' <= c <= 'Z' }

  /** ASCII lower-casing of one character; every other character is kept. */
  function LowerChar(c: char): (r: char)
    ensures !IsUpper(r)
    ensures !IsUpper(c) ==> r == c
    ensures IsUpper(c) ==> r as int - c as int == 'a' as int - 'A' as int
  {
    if IsUpper(c) then (c as int - 'A' as int + 'a' as int) as char else c
  }

  /** `toLowerCase`, restricted to ASCII letters. */
  function Lower(s: string): (r: string)
    ensures |r| == |s|
    ensures forall i :: 0 <= i < |s| ==> r[i] == LowerChar(s[i])
  {
    if s == [] then [] else [LowerChar(s[0])] + Lower(s[1..])
  }

  /** Lower-casing twice is lower-casing once, so text the adapter lower-cases
      before handing it to the store is stored unchanged. */
  lemma LowerIdempotent(s: string)
    ensures Lower(Lower(s)) == Lower(s)
  {
    assert forall i :: 0 <= i < |s| ==> Lower(Lower(s))[i] == Lower(s)[i];
  }

  /** Lower-casing commutes with taking a slice. */
  lemma {:induction false} LowerSlice(s: string, i: nat, j: nat)
    requires i <= j <= |s|
    ensures Lower(s[i..j]) == Lower(s)[i..j]
  {
    var a, b := Lower(s[i..j]), Lower(s)[i..j];
    forall k | 0 <= k < j - i
      ensures a[k] == b[k]
    {
      assert s[i..j][k] == s[i + k];
    }
  }

  /** `s.replace(/c/g, "")`: every occurrence of `c` removed, the rest in order. */
  function DeleteAll(s: string, c: char): (r: string)
    ensures |r| <= |s|
    ensures forall k :: 0 <= k < |r| ==> r[k] != c
  {
    if s == [] then []
    else (if s[0] == c then [] else [s[0]]) + DeleteAll(s[1..], c)
  }

  /** Deletion keeps every other character as often as it occurs. */
  lemma {:induction false} DeleteAllContents(s: string, c: char)
    ensures multiset(DeleteAll(s, c)) == multiset(s)[c := 0]
  {
    if s != [] {
      assert s == [s[0]] + s[1..];
      DeleteAllContents(s[1..], c);
    }
  }

  /** Deletion distributes over concatenation: the kept characters stay in order. */
  lemma {:induction false} DeleteAllAppend(u: string, v: string, c: char)
    ensures DeleteAll(u + v, c) == DeleteAll(u, c) + DeleteAll(v, c)
  {
    if u == [] {
      assert u + v == v;
    } else {
      assert (u + v)[0] == u[0] && (u + v)[1..] == u[1..] + v;
      DeleteAllAppend(u[1..], v, c);
    }
  }

  /** Deleting `a` and then `b` leaves nothing exactly when every character is
      `a` or `b`. */
  lemma {:induction false} DeleteTwiceEmpty(s: string, a: char, b: char)
    ensures DeleteAll(DeleteAll(s, a), b) == [] <==>
            forall k :: 0 <= k < |s| ==> s[k] == a || s[k] == b
  {
    if s != [] {
      var head := if s[0] == a then [] else [s[0]];
      var rest := DeleteAll(s[1..], a);
      assert DeleteAll(s, a) == head + rest;
      DeleteAllAppend(head, rest, b);
      DeleteTwiceEmpty(s[1..], a, b);
      assert DeleteAll(head, b) == [] <==> s[0] == a || s[0] == b;
      assert (forall k :: 0 <= k < |s| ==> s[k] == a || s[k] == b) <==>
             (s[0] == a || s[0] == b) && (forall k :: 0 <= k < |s[1..]| ==> s[1..][k] == a || s[1..][k] == b)
      by {
        assert forall k :: 0 <= k < |s[1..]| ==> s[1..][k] == s[k + 1];
      }
    }
  }

  /** `s.startsWith(p)`. */
  predicate StartsWith(s: string, p: string) {
    |p| <= |s| && s[..|p|] == p
  }

  /** `s.includes(sub)`: `sub` occurs at some position of `s`. */
  predicate Contains(s: string, sub: string)
    decreases |s|
  {
    StartsWith(s, sub) || (s != [] && Contains(s[1..], sub))
  }

  /** An occurrence at any position is found by `includes`. */
  lemma {:induction false} ContainsAt(s: string, sub: string, i: nat)
    requires i + |sub| <= |s| && s[i..i + |sub|] == sub
    ensures Contains(s, sub)
  {
    if i > 0 {
      assert s[1..][i - 1..i - 1 + |sub|] == s[i..i + |sub|];
      ContainsAt(s[1..], sub, i - 1);
    } else {
      assert s[..|sub|] == s[0..|sub|];
    }
  }

  /** Every character of an occurring substring is a character of the string. */
  lemma {:induction false} ContainsChars(s: string, sub: string, k: nat)
    requires Contains(s, sub) && k < |sub|
    ensures sub[k] in s
  {
    if StartsWith(s, sub) {
      assert s[k] == sub[k];
    } else {
      ContainsChars(s[1..], sub, k);
    }
  }

  /** An occurrence survives lower-casing: `Lower(s)` contains `Lower(sub)`. */
  lemma {:induction false} ContainsLower(s: string, sub: string)
    requires Contains(s, sub)
    ensures Contains(Lower(s), Lower(sub))
  {
    if StartsWith(s, sub) {
      LowerSlice(s, 0, |sub|);
    } else {
      ContainsLower(s[1..], sub);
      LowerSlice(s, 1, |s|);
    }
  }
}
