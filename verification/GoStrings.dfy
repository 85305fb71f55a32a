/** The string operations of the Go standard library that the modelled code uses, on ASCII input. */
module GoStrings {
  import opened Wrappers

  predicate IsAscii(s: string)
  {
    forall i :: 0 <= i < |s| ==> s[i] < 128 as char
  }

  function LowerChar(c: char): char
  {
    if 'A' <= c <= 'Z' then (c as int + 32) as char else c
  }

  function ToLower(s: string): (r: string)
    ensures |r| == |s|
  {
    seq(|s|, i requires 0 <= i < |s| => LowerChar(s[i]))
  }

  /** The 26 capital letters become the small ones, 32 above them; all other characters stay. */
  lemma ToLowerLowers(s: string, i: nat)
    requires i < |s|
    ensures ToLower(s)[i] as int == s[i] as int + if 65 <= s[i] as int <= 90 then 32 else 0
  {}

  lemma ToLowerIdempotent(s: string)
    ensures ToLower(ToLower(s)) == ToLower(s)
  {}

  lemma ToLowerAscii(s: string)
    requires IsAscii(s)
    ensures IsAscii(ToLower(s))
  {}

  lemma ToLowerConcat(a: string, b: string)
    ensures ToLower(a + b) == ToLower(a) + ToLower(b)
  {}

  /** Position of the last occurrence of `c`. */
  function LastIndex(s: string, c: char): (r: Option<nat>)
    ensures r.Some? ==> r.value < |s| && s[r.value] == c && c !in s[r.value + 1..]
    ensures r.None? ==> c !in s
  {
    if s == [] then None
    else if s[|s| - 1] == c then Some(|s| - 1)
    else LastIndex(s[..|s| - 1], c)
  }

  lemma {:induction false} LastIndexOf(a: string, c: char, b: string)
    requires c !in b
    ensures LastIndex(a + [c] + b, c) == Some(|a|)
  {
    if b == [] {
      assert a + [c] + b == a + [c];
    } else {
      assert (a + [c] + b)[..|a + [c] + b| - 1] == a + [c] + b[..|b| - 1];
      LastIndexOf(a, c, b[..|b| - 1]);
    }
  }

  // ---- Trimming ----

  predicate IsSpace(c: char)
  {
    c == ' ' || '\t' <= c <= '\r'
  }

  function TrimLeft(s: string, drop: char -> bool): (r: string)
    ensures |r| <= |s|
  {
    if s != "" && drop(s[0]) then TrimLeft(s[1..], drop) else s
  }

  function TrimRight(s: string, drop: char -> bool): (r: string)
    ensures |r| <= |s|
  {
    if s != "" && drop(s[|s| - 1]) then TrimRight(s[..|s| - 1], drop) else s
  }

  function TrimSpace(s: string): string
  {
    TrimRight(TrimLeft(s, IsSpace), IsSpace)
  }

  /** What is left ends the text, does not begin with a dropped character, and all before it is dropped. */
  lemma {:induction false} TrimmedLeft(s: string, drop: char -> bool)
    ensures var r := TrimLeft(s, drop);
            && r == s[|s| - |r|..] && (r == "" || !drop(r[0]))
            && forall i :: 0 <= i < |s| - |r| ==> drop(s[i])
  {
    if s != "" && drop(s[0]) {
      TrimmedLeft(s[1..], drop);
    }
  }

  /** What is left begins the text, does not end with a dropped character, and all after it is dropped. */
  lemma {:induction false} TrimmedRight(s: string, drop: char -> bool)
    ensures var r := TrimRight(s, drop);
            && r <= s && (r == "" || !drop(r[|r| - 1]))
            && forall i :: |r| <= i < |s| ==> drop(s[i])
  {
    if s != "" && drop(s[|s| - 1]) {
      TrimmedRight(s[..|s| - 1], drop);
    }
  }

  /** A blank, a tab or one of the four line characters. */
  predicate Blank(c: char) { c as int == 32 || c as int in {9, 10, 11, 12, 13} }

  /** Blanks, `t` and blanks, where `t` does not begin or end with one. */
  ghost predicate IsTrimmed(t: string, s: string)
  {
    && (t != "" ==> !Blank(t[0]) && !Blank(t[|t| - 1]))
    && exists i: nat :: OccursAt(t, s, i) && forall k :: 0 <= k < |s| && !(i <= k < i + |t|) ==> Blank(s[k])
  }

  predicate OccursAt(t: string, s: string, i: nat) { i + |t| <= |s| && s[i..i + |t|] == t }

  lemma TrimSpaceTrims(s: string)
    ensures IsTrimmed(TrimSpace(s), s)
  {
    var r := TrimLeft(s, IsSpace);
    var t := TrimRight(r, IsSpace);
    TrimmedLeft(s, IsSpace);
    TrimmedRight(r, IsSpace);
    hide TrimLeft, TrimRight;
    assert forall c: char :: IsSpace(c) == Blank(c);
    var i := |s| - |r|;
    assert OccursAt(t, s, i);
    forall k | 0 <= k < |s| && !(i <= k < i + |t|)
      ensures Blank(s[k])
    {
      assert k >= i ==> s[k] == r[k - i];
    }
  }

  lemma TrimSpaceIdempotent(s: string)
    ensures TrimSpace(TrimSpace(s)) == TrimSpace(s)
  {
    TrimmedLeft(s, IsSpace);
    TrimmedRight(TrimLeft(s, IsSpace), IsSpace);
  }

  lemma NothingToTrim(s: string)
    ensures s != "" && !IsSpace(s[0]) && !IsSpace(s[|s| - 1]) ==> TrimSpace(s) == s
  {}

  lemma NothingToCut(s: string)
    ensures s != "" && s[|s| - 1] != '/' ==> TrimRight(s, c => c == '/') == s
  {}

  function TrimPrefix(s: string, prefix: string): string
  {
    if prefix <= s then s[|prefix|..] else s
  }

  // ---- Searching ----

  /** Position of the first occurrence of `c`. */
  function Index(s: string, c: char): (r: Option<nat>)
    ensures r.Some? ==> r.value < |s| && s[r.value] == c && c !in s[..r.value]
    ensures r.None? ==> c !in s
  {
    if s == "" then None
    else if s[0] == c then Some(0)
    else
      match Index(s[1..], c)
      case None => None
      case Some(i) => assert s[..i + 1] == [s[0]] + s[1..][..i]; Some(i + 1)
  }

  lemma NoneFound(s: string, c: char)
    ensures c !in s ==> Index(s, c) == None
  {
    var found := Index(s, c);
    assert found.Some? ==> s[found.value] == c;
  }

  lemma NoLastFound(s: string, c: char)
    ensures c !in s ==> LastIndex(s, c) == None
  {
    var found := LastIndex(s, c);
    assert found.Some? ==> s[found.value] == c;
  }

  predicate Contains(s: string, sub: string)
  {
    sub <= s || (s != "" && Contains(s[1..], sub))
  }

  lemma {:induction false} ContainsOccurrence(s: string, sub: string)
    ensures Contains(s, sub) <==> exists i: nat :: OccursAt(sub, s, i)
  {
    if sub <= s {
      assert OccursAt(sub, s, 0);
    } else if s != "" {
      ContainsOccurrence(s[1..], sub);
      forall i: nat | OccursAt(sub, s[1..], i)
        ensures OccursAt(sub, s, i + 1)
      {
        assert s[i + 1..i + 1 + |sub|] == s[1..][i..i + |sub|];
      }
      forall i: nat | OccursAt(sub, s, i)
        ensures i > 0 && OccursAt(sub, s[1..], i - 1)
      {
        assert i > 0 ==> s[i..i + |sub|] == s[1..][i - 1..i - 1 + |sub|];
      }
    }
  }

  predicate EqualFold(a: string, b: string)
  {
    ToLower(a) == ToLower(b)
  }

  lemma FirstIndex(s: string, at: nat, c: char)
    requires at < |s| && s[at] == c && c !in s[..at]
    ensures Index(s, c) == Some(at)
  {
    var found := Index(s, c);
    assert s[at] in s;
    NotBefore(s, at, c);
    NotBefore(s, found.value, c);
  }

  lemma NotBefore(s: string, at: nat, c: char)
    requires at <= |s| && c !in s[..at]
    ensures forall k :: 0 <= k < at ==> s[k] != c
  {
    forall k | 0 <= k < at
      ensures s[k] != c
    {
      assert s[..at][k] in s[..at];
    }
  }

  function FirstNonEmptyTrimmed(a: string, b: string): string
  {
    if TrimSpace(a) != "" then TrimSpace(a) else TrimSpace(b)
  }
}
