/** Lexical primitives: character classes, whitespace trimming, prefix
    matching and token consumption over a cursor (the remaining input). */
module Lexical {
  import opened Wrappers

  /** `std::isspace` in the "C" locale: space, tab, newline, vertical tab,
      form feed and carriage return. */
  predicate IsSpace(c: char) {
    c == ' ' || ('\t' <= c <= '\r')
  }

  /** `std::isalpha` in the "C" locale: ASCII letters only. */
  predicate IsAlpha(c: char) {
    ('A' <= c <= 'Z') || ('a' <= c <= 'z')
  }

  /** The whitespace characters are the six with codes 9 to 13 and 32. */
  lemma IsSpaceCodes(c: char)
    ensures IsSpace(c) <==> c as int in {9, 10, 11, 12, 13, 32}
  {
  }

  predicate AllSpace(s: string) {
    forall i :: 0 <= i < |s| ==> IsSpace(s[i])
  }

  /** The text left once leading whitespace is removed. */
  ghost function TrimmedLeading(s: string): (t: string)
    decreases |s|
    ensures |t| <= |s|
  {
    if s != [] && IsSpace(s[0]) then TrimmedLeading(s[1..]) else s
  }

  /** The text left once trailing whitespace is removed. */
  ghost function TrimmedTrailing(s: string): (t: string)
    decreases |s|
    ensures |t| <= |s|
  {
    if s != [] && IsSpace(s[|s| - 1]) then TrimmedTrailing(s[..|s| - 1]) else s
  }

  /** Trimming leading whitespace leaves a suffix of `s` that is empty or
      starts with a non-space, and all that it removes is whitespace. */
  lemma {:induction false} TrimmedLeadingShape(s: string)
    decreases |s|
    ensures var t := TrimmedLeading(s);
      && t == s[|s| - |t|..]
      && (t == [] || !IsSpace(t[0]))
      && AllSpace(s[..|s| - |t|])
  {
    if s != [] && IsSpace(s[0]) {
      TrimmedLeadingShape(s[1..]);
      var t := TrimmedLeading(s);
      assert s[1..][|s| - 1 - |t|..] == s[|s| - |t|..];
      forall i | 0 <= i < |s| - |t|
        ensures IsSpace(s[i])
      {
        if i > 0 {
          assert s[i] == s[1..][..|s| - 1 - |t|][i - 1];
        }
      }
    }
  }

  /** Trimming trailing whitespace leaves a prefix of `s` that is empty or
      ends with a non-space, and all that it removes is whitespace. */
  lemma {:induction false} TrimmedTrailingShape(s: string)
    decreases |s|
    ensures var t := TrimmedTrailing(s);
      && t == s[..|t|]
      && (t == [] || !IsSpace(t[|t| - 1]))
      && AllSpace(s[|t|..])
  {
    if s != [] && IsSpace(s[|s| - 1]) {
      var s' := s[..|s| - 1];
      TrimmedTrailingShape(s');
      var t := TrimmedTrailing(s);
      assert s'[..|t|] == s[..|t|];
      forall i | 0 <= i < |s| - |t|
        ensures IsSpace(s[|t|..][i])
      {
        if i < |s| - 1 - |t| {
          assert s[|t|..][i] == s'[|t|..][i];
        }
      }
    }
  }

  /** Any split of `s` into a whitespace run and a remainder that does not start
      with whitespace is the one `TrimmedLeading` makes. */
  lemma {:induction false} TrimmedLeadingUnique(s: string, k: nat)
    requires k <= |s| && AllSpace(s[..k])
    requires k == |s| || !IsSpace(s[k])
    ensures TrimmedLeading(s) == s[k..]
  {
    if k > 0 {
      assert IsSpace(s[..k][0]);
      assert s[1..][..k - 1] == s[1..k] && s[1..k] == s[..k][1..];
      TrimmedLeadingUnique(s[1..], k - 1);
      assert s[1..][k - 1..] == s[k..];
    }
  }

  /** Any split of `s` into a remainder that does not end with whitespace and a
      whitespace run is the one `TrimmedTrailing` makes. */
  lemma {:induction false} TrimmedTrailingUnique(s: string, k: nat)
    requires k <= |s| && AllSpace(s[k..])
    requires k == 0 || !IsSpace(s[k - 1])
    ensures TrimmedTrailing(s) == s[..k]
  {
    if k < |s| {
      assert IsSpace(s[k..][|s| - 1 - k]);
      var s' := s[..|s| - 1];
      assert s'[k..] == s[k..|s| - 1];
      assert forall i :: 0 <= i < |s'[k..]| ==> s'[k..][i] == s[k..][i];
      TrimmedTrailingUnique(s', k);
      assert s'[..k] == s[..k];
    }
  }

  /** Trimming leading whitespace twice is the same as trimming once. */
  lemma TrimmedLeadingIdempotent(s: string)
    ensures TrimmedLeading(TrimmedLeading(s)) == TrimmedLeading(s)
  {
    TrimmedLeadingShape(s);
    TrimmedLeadingUnique(TrimmedLeading(s), 0);
  }

  /** Trimming trailing whitespace twice is the same as trimming once. */
  lemma TrimmedTrailingIdempotent(s: string)
    ensures TrimmedTrailing(TrimmedTrailing(s)) == TrimmedTrailing(s)
  {
    TrimmedTrailingShape(s);
    var t := TrimmedTrailing(s);
    TrimmedTrailingUnique(t, |t|);
  }

  /** `trim_leading_whitespace`: drops spaces from the front of the cursor one
      at a time, stopping at the first non-space or at the end of the input. */
  method TrimLeadingWhitespace(s: string) returns (t: string)
    ensures t == TrimmedLeading(s)
  {
    t := s;
    while t != [] && IsSpace(t[0])
      invariant TrimmedLeading(t) == TrimmedLeading(s)
      decreases |t|
    {
      t := t[1..];
    }
  }

  /** `trim_trailing_whitespace`: drops spaces from the back of the view one at
      a time, stopping at the last non-space or when the view is empty. */
  method TrimTrailingWhitespace(s: string) returns (t: string)
    ensures t == TrimmedTrailing(s)
  {
    t := s;
    while t != [] && IsSpace(t[|t| - 1])
      invariant TrimmedTrailing(t) == TrimmedTrailing(s)
      decreases |t|
    {
      t := t[..|t| - 1];
    }
  }

  function Min(a: nat, b: nat): nat {
    if a <= b then a else b
  }

  /** `match`: compares the first `|token|` characters of `s` (fewer when `s`
      is shorter) with `token`; true exactly when `token` is a prefix of `s`. */
  function Match(s: string, token: string): (r: bool)
    ensures r <==> token <= s
  {
    s[..Min(|token|, |s|)] == token
  }

  /** `try_consume`: when the cursor starts with `token`, removes exactly that
      token and answers true; otherwise leaves the cursor unchanged. */
  method TryConsume(s: string, token: string) returns (ok: bool, rest: string)
    ensures ok <==> token <= s
    ensures ok ==> s == token + rest
    ensures !ok ==> rest == s
  {
    if !Match(s, token) {
      return false, s;
    }
    ok, rest := true, s[|token|..];
  }

  /** `std::string_view::find(c, from)`: the first position at or after `from`
      that holds `c`, or no position (`npos`) when there is none. */
  function Find(s: string, c: char, from: nat): (r: Maybe<nat>)
    decreases |s| - from
    ensures r.Some? ==> from <= r.value < |s| && s[r.value] == c
    ensures r.Some? ==> forall i :: from <= i < r.value ==> s[i] != c
    ensures r.None? ==> forall i :: from <= i < |s| ==> s[i] != c
  {
    if from >= |s| then None
    else if s[from] == c then Some(from)
    else Find(s, c, from + 1)
  }

  /** Whitespace followed by text that does not start with whitespace trims
      to that text. */
  lemma TrimmedLeadingJoin(w: string, t: string)
    requires AllSpace(w) && (t == [] || !IsSpace(t[0]))
    ensures TrimmedLeading(w + t) == t
  {
    var s := w + t;
    assert s[..|w|] == w && s[|w|..] == t;
    TrimmedLeadingUnique(s, |w|);
  }
}
