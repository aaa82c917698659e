/**
 The cookie codec of the session manager: reading one cookie out of a
 request's `Cookie` header and building the `name=value` pair the filters
 write back into `Cookie` and `Set-Cookie`.

 The header is split on "; " (the cookie-string separator of section 4.2.1
 of RFC 6265) with the semantics of Go's `strings.Split`, and the first
 segment that begins with `name=` wins.
 */
module Cookies {

  /** The separator between cookie pairs in a `Cookie` header. */
  const Separator: string := "; "

  /** Go's `strings.HasPrefix`: the first `|prefix|` characters of `s` are `prefix`. */
  predicate HasPrefix(s: string, prefix: string) {
    |prefix| <= |s| && s[..|prefix|] == prefix
  }

  /**
   Go's `strings.TrimPrefix`: drops `prefix` when `s` starts with it, so that
   putting the prefix back gives `s`; any other string is returned as it is.
   */
  function TrimPrefix(s: string, prefix: string): (t: string)
    ensures HasPrefix(s, prefix) ==> prefix + t == s
    ensures !HasPrefix(s, prefix) ==> t == s
  {
    if HasPrefix(s, prefix) then s[|prefix|..] else s
  }

  /** No occurrence of `sep` starts anywhere in `s`. */
  ghost predicate Free(s: string, sep: string) {
    forall i :: 0 <= i <= |s| ==> !HasPrefix(s[i..], sep)
  }

  /**
   Go's `strings.Split(s, sep)` for a non-empty separator: the pieces between
   the non-overlapping occurrences of `sep`, found left to right. The empty
   string splits into one empty piece.
   */
  function Split(s: string, sep: string): (parts: seq<string>)
    requires |sep| > 0
    ensures |parts| >= 1
    decreases |s|
  {
    if HasPrefix(s, sep) then [""] + Split(s[|sep|..], sep)
    else if s == "" then [""]
    else
      var rest := Split(s[1..], sep);
      [[s[0]] + rest[0]] + rest[1..]
  }

  /**
   A piece that does not start a separator, followed by a separator-free
   prefix of the rest of `s`, is itself a separator-free prefix of `s`.
   */
  lemma FreeCons(s: string, p: string, sep: string)
    requires |s| > 0 && |sep| > 0 && !HasPrefix(s, sep)
    requires |p| < |s| && forall k :: 0 <= k < |p| ==> p[k] == s[k + 1]
    requires Free(p, sep)
    ensures Free([s[0]] + p, sep)
  {
    var q := [s[0]] + p;
    assert |sep| <= |q| ==> q[..|sep|] == s[..|sep|];
    forall i | 0 <= i <= |q| ensures !HasPrefix(q[i..], sep) {
      if i > 0 {
        assert q[i..] == p[i - 1..];
      }
    }
  }

  /** Go's `strings.Join`, the inverse of `Split`. */
  function Join(parts: seq<string>, sep: string): string
    requires |parts| >= 1
  {
    if |parts| == 1 then parts[0] else parts[0] + sep + Join(parts[1..], sep)
  }

  /**
   No piece of a split contains the separator, and the first piece is the
   start of the string: the split cuts at every occurrence it meets.
   */
  lemma {:induction false} SplitPieces(s: string, sep: string)
    requires |sep| > 0
    ensures var parts := Split(s, sep);
      && |parts[0]| <= |s| && (forall k :: 0 <= k < |parts[0]| ==> parts[0][k] == s[k])
      && forall j :: 0 <= j < |parts| ==> Free(parts[j], sep)
    decreases |s|
  {
    if HasPrefix(s, sep) {
      SplitPieces(s[|sep|..], sep);
      var parts := Split(s, sep);
      assert parts == [""] + Split(s[|sep|..], sep);
      assert Free("", sep);
    } else if s == "" {
      assert Free("", sep);
    } else {
      SplitPieces(s[1..], sep);
      var rest := Split(s[1..], sep);
      FreeCons(s, rest[0], sep);
    }
  }

  /** Prepending a character to the first piece prepends it to the joined string. */
  lemma JoinCons(c: char, parts: seq<string>, sep: string)
    requires |parts| >= 1
    ensures Join([[c] + parts[0]] + parts[1..], sep) == [c] + Join(parts, sep)
  {
    var consed := [[c] + parts[0]] + parts[1..];
    if |parts| > 1 {
      assert consed[1..] == parts[1..];
    }
  }

  /** A leading empty piece joins to a leading separator. */
  lemma JoinEmptyFirst(parts: seq<string>, sep: string)
    requires |parts| >= 1
    ensures Join([""] + parts, sep) == sep + Join(parts, sep)
  {
    assert ([""] + parts)[1..] == parts;
  }

  /** Splitting loses nothing: joining the pieces gives the header back. */
  lemma {:induction false} SplitJoin(s: string, sep: string)
    requires |sep| > 0
    ensures Join(Split(s, sep), sep) == s
    decreases |s|
  {
    if HasPrefix(s, sep) {
      var tail := s[|sep|..];
      SplitJoin(tail, sep);
      JoinEmptyFirst(Split(tail, sep), sep);
      assert s == sep + tail;
    } else if s != "" {
      var rest := Split(s[1..], sep);
      SplitJoin(s[1..], sep);
      JoinCons(s[0], rest, sep);
      assert s == [s[0]] + s[1..];
    }
  }

  /** A string with no separator in it splits into itself alone. */
  lemma {:induction false} SplitFree(s: string, sep: string)
    requires |sep| > 0 && Free(s, sep)
    ensures Split(s, sep) == [s]
    decreases |s|
  {
    assert s[0..] == s;
    if s != "" {
      assert !HasPrefix(s, sep);
      forall i | 0 <= i <= |s[1..]| ensures !HasPrefix(s[1..][i..], sep) {
        assert s[1..][i..] == s[i + 1..];
      }
      SplitFree(s[1..], sep);
      assert [s[0]] + s[1..] == s;
    }
  }

  /** Splitting on "; " distributes over a "; " between two headers. */
  lemma {:induction false} SplitAppend(a: string, b: string)
    ensures Split(a + Separator + b, Separator) == Split(a, Separator) + Split(b, Separator)
    decreases |a|
  {
    var s := a + Separator + b;
    if a == "" {
      assert HasPrefix(s, Separator);
      assert s[2..] == b;
    } else if HasPrefix(a, Separator) {
      assert s[..2] == a[..2];
      assert s[2..] == a[2..] + Separator + b;
      SplitAppend(a[2..], b);
    } else {
      assert !HasPrefix(s, Separator) by {
        if |a| >= 2 { assert s[..2] == a[..2]; } else { assert s[1] == ';'; }
      }
      assert s[1..] == a[1..] + Separator + b;
      SplitAppend(a[1..], b);
      var left := Split(a[1..], Separator);
      var right := Split(b, Separator);
      assert (left + right)[0] == left[0];
      assert (left + right)[1..] == left[1..] + right;
    }
  }

  /** Segment `j` is the first of `segs` to start with `prefix`. */
  ghost predicate FirstMatch(segs: seq<string>, prefix: string, j: int) {
    0 <= j < |segs| && HasPrefix(segs[j], prefix)
    && forall i :: 0 <= i < j ==> !HasPrefix(segs[i], prefix)
  }

  /** Index of the first segment that starts with `prefix`, or `|segs|` if none does. */
  function FirstWithPrefix(segs: seq<string>, prefix: string): (i: nat)
    ensures i <= |segs|
    ensures forall j :: 0 <= j < i ==> !HasPrefix(segs[j], prefix)
    ensures i < |segs| ==> HasPrefix(segs[i], prefix)
    decreases |segs|
  {
    if segs == [] || HasPrefix(segs[0], prefix) then 0
    else 1 + FirstWithPrefix(segs[1..], prefix)
  }

  /**
   The `name=value` pair written into `Cookie` and `Set-Cookie`: it starts with
   `name=`, and trimming `name=` off it gives the value back.
   */
  function CookiePair(name: string, value: string): (pair: string)
    ensures HasPrefix(pair, name + "=")
    ensures TrimPrefix(pair, name + "=") == value
  {
    name + "=" + value
  }

  /**
   The value of cookie `key` in the header `cookies`, and whether it was
   present: the remainder of the first "; "-separated segment that starts with
   `key=`. An absent or empty header, or one without such a segment, gives
   ("", false); a present cookie may have an empty value.
   */
  function KeyFromCookies(key: string, cookies: string): (r: (string, bool))
    ensures cookies == "" ==> r == ("", false)
    ensures !r.1 ==> r.0 == ""
    ensures var segs := Split(cookies, Separator);
      !r.1 ==> forall j :: 0 <= j < |segs| ==> !HasPrefix(segs[j], key + "=")
  {
    var segs := Split(cookies, Separator);
    var i := FirstWithPrefix(segs, key + "=");
    assert cookies == "" ==> segs == [""] && !HasPrefix(segs[0], key + "=");
    if cookies != "" && i < |segs| then
      (TrimPrefix(segs[i], key + "="), true)
    else ("", false)
  }

  /**
   When some segment starts with `key=`, the cookie is found and its value is
   what follows `key=` in the first such segment; later duplicates are ignored.
   */
  lemma KeyFromCookiesFound(key: string, cookies: string, j: int)
    requires FirstMatch(Split(cookies, Separator), key + "=", j)
    ensures KeyFromCookies(key, cookies) == (Split(cookies, Separator)[j][|key| + 1..], true)
  {
  }

  /** When no segment starts with `key=` the cookie is reported missing, with an empty value. */
  lemma KeyFromCookiesMissing(key: string, cookies: string)
    requires forall j :: 0 <= j < |Split(cookies, Separator)| ==> !HasPrefix(Split(cookies, Separator)[j], key + "=")
    ensures KeyFromCookies(key, cookies) == ("", false)
  {
  }

  /**
   getKeyFromCookies: the loop over the split header with an early return on
   the first segment carrying the `key=` prefix.
   */
  method GetKeyFromCookies(key: string, cookies: string) returns (value: string, found: bool)
    ensures (value, found) == KeyFromCookies(key, cookies)
  {
    if cookies != "" {
      var cookieStrings := Split(cookies, Separator);
      var prefix := key + "=";
      var i := 0;
      while i < |cookieStrings|
        invariant 0 <= i <= |cookieStrings|
        invariant forall j :: 0 <= j < i ==> !HasPrefix(cookieStrings[j], prefix)
      {
        if HasPrefix(cookieStrings[i], prefix) {
          assert FirstWithPrefix(cookieStrings, prefix) == i;
          return TrimPrefix(cookieStrings[i], prefix), true;
        }
        i := i + 1;
      }
      assert FirstWithPrefix(cookieStrings, prefix) == |cookieStrings|;
    }
    return "", false;
  }

  /** A pair built from a name and a value free of "; " carries no separator either. */
  lemma PairFree(name: string, value: string)
    requires Free(name, Separator) && Free(value, Separator)
    ensures Free(CookiePair(name, value), Separator)
  {
    var s := CookiePair(name, value);
    forall i | 0 <= i <= |s| ensures !HasPrefix(s[i..], Separator) {
      if i + 1 < |name| {
        assert !HasPrefix(name[i..], Separator);
        assert s[i] == name[i] && s[i + 1] == name[i + 1];
      } else if i > |name| {
        assert s[i..] == value[i - |name| - 1..];
      } else {
        assert s[|name|] == '=';
      }
    }
  }

  /**
   Round trip: the cookie the filters write, `name=value`, reads back as
   `value` under `name`, provided neither contains the separator.
   */
  lemma CookieRoundTrip(name: string, value: string)
    requires Free(name, Separator) && Free(value, Separator)
    ensures KeyFromCookies(name, CookiePair(name, value)) == (value, true)
  {
    var s := CookiePair(name, value);
    PairFree(name, value);
    SplitFree(s, Separator);
    assert HasPrefix(s, name + "=");
  }

  /** Duplicates: a `name=value` segment shadows every later segment of the same name. */
  lemma FirstOccurrenceWins(name: string, value: string, rest: string)
    requires Free(name, Separator) && Free(value, Separator)
    ensures KeyFromCookies(name, CookiePair(name, value) + Separator + rest) == (value, true)
  {
    var s := CookiePair(name, value);
    PairFree(name, value);
    SplitFree(s, Separator);
    SplitAppend(s, rest);
    assert Split(s + Separator + rest, Separator)[0] == s;
    assert HasPrefix(s, name + "=");
  }

  /** A leading segment that does not name the cookie is skipped over. */
  lemma SkipOtherCookie(key: string, other: string, rest: string)
    requires Free(other, Separator) && !HasPrefix(other, key + "=")
    ensures KeyFromCookies(key, other + Separator + rest) == KeyFromCookies(key, rest)
  {
    var all := other + Separator + rest;
    SplitFree(other, Separator);
    SplitAppend(other, rest);
    var segs := Split(all, Separator);
    var tail := Split(rest, Separator);
    assert segs == [other] + tail;
    assert segs[1..] == tail;
    assert FirstWithPrefix(segs, key + "=") == 1 + FirstWithPrefix(tail, key + "=");
    if rest == "" {
      assert tail == [""];
    }
  }
}
