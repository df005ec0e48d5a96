/** The JavaScript string built-ins the components rely on, stated over `seq<char>`:
    `trim`, ASCII `toLowerCase`/`toUpperCase`, `includes`, `startsWith`, `split` and
    `join` on one separator character, `replace(/c/g, …)` of one character and
    `lastIndexOf` of one character. */
module Strings {

  /** The characters `String.prototype.trim` strips: the ECMAScript WhiteSpace and
      LineTerminator code points. */
  predicate IsSpace(c: char) {
    c == '\t' || c == '\n' || c == '\U{000B}' || c == '\U{000C}' || c == '\r' || c == ' '
    || c == '\U{00A0}' || c == '\U{1680}' || ('\U{2000}' <= c <= '\U{200A}')
    || c == '\U{2028}' || c == '\U{2029}' || c == '\U{202F}' || c == '\U{205F}'
    || c == '\U{3000}' || c == '\U{FEFF}'
  }

  predicate AllSpace(s: string) {
    forall i :: 0 <= i < |s| ==> IsSpace(s[i])
  }

  /** The first index at or after `i` that does not hold white space (or `|s|`). */
  function SkipSpace(s: string, i: nat): (r: nat)
    requires i <= |s|
    ensures i <= r <= |s|
    ensures forall j :: i <= j < r ==> IsSpace(s[j])
    ensures r == |s| || !IsSpace(s[r])
    decreases |s| - i
  {
    if i < |s| && IsSpace(s[i]) then SkipSpace(s, i + 1) else i
  }

  /** The end of `s[lo..e]` once its trailing white space is dropped. */
  function BackSpace(s: string, lo: nat, e: nat): (r: nat)
    requires lo <= e <= |s|
    ensures lo <= r <= e
    ensures forall j :: r <= j < e ==> IsSpace(s[j])
    ensures r == lo || !IsSpace(s[r - 1])
  {
    if lo < e && IsSpace(s[e - 1]) then BackSpace(s, lo, e - 1) else e
  }

  /** Where `Trim(s)` starts inside `s`. */
  function TrimOffset(s: string): (k: nat)
    ensures k <= |s|
  {
    SkipSpace(s, 0)
  }

  /** Where `Trim(s)` ends inside `s`. */
  function TrimLimit(s: string): (e: nat)
    ensures TrimOffset(s) <= e <= |s|
  {
    BackSpace(s, TrimOffset(s), |s|)
  }

  /** `String.prototype.trim`: the slice of `s` left when the white space at both ends
      is removed. */
  function Trim(s: string): (r: string)
    ensures r == s[TrimOffset(s)..TrimLimit(s)]
    ensures forall j :: 0 <= j < TrimOffset(s) ==> IsSpace(s[j])
    ensures forall j :: TrimLimit(s) <= j < |s| ==> IsSpace(s[j])
    ensures r == [] || (!IsSpace(r[0]) && !IsSpace(r[|r| - 1]))
  {
    s[TrimOffset(s)..TrimLimit(s)]
  }

  /** A string is blank (`!s.trim()` holds) exactly when every character is white space. */
  lemma TrimEmptyIffAllSpace(s: string)
    ensures Trim(s) == [] <==> AllSpace(s)
  {
    var k, e := TrimOffset(s), TrimLimit(s);
    if Trim(s) == [] {
      assert k == e;
    }
  }

  /** Trimming is idempotent. */
  lemma TrimIdempotent(s: string)
    ensures Trim(Trim(s)) == Trim(s)
  {
    var r := Trim(s);
    if r != [] {
      assert TrimOffset(r) == 0;
      assert TrimLimit(r) == |r|;
    } else {
      assert TrimOffset(r) == 0;
    }
  }

  predicate IsUpperAscii(c: char) { 'A' <= c <= 'Z' }
  predicate IsLowerAscii(c: char) { 'a' <= c <= 'z' }

  function LowerChar(c: char): (d: char)
    ensures !IsUpperAscii(d)
    ensures !IsUpperAscii(c) ==> d == c
  {
    if IsUpperAscii(c) then (c as int + 32) as char else c
  }

  function UpperChar(c: char): (d: char)
    ensures !IsLowerAscii(d)
    ensures !IsLowerAscii(c) ==> d == c
  {
    if IsLowerAscii(c) then (c as int - 32) as char else c
  }

  /** `toLowerCase`, restricted to the ASCII letters. */
  function Lower(s: string): (r: string)
    ensures |r| == |s|
    ensures forall i :: 0 <= i < |s| ==> r[i] == LowerChar(s[i])
  {
    if s == [] then [] else [LowerChar(s[0])] + Lower(s[1..])
  }

  /** `toUpperCase`, restricted to the ASCII letters. */
  function Upper(s: string): (r: string)
    ensures |r| == |s|
    ensures forall i :: 0 <= i < |s| ==> r[i] == UpperChar(s[i])
  {
    if s == [] then [] else [UpperChar(s[0])] + Upper(s[1..])
  }

  /** `s.includes(sub)`. */
  predicate Contains(s: string, sub: string) {
    exists i | 0 <= i <= |s| - |sub| :: OccursAt(s, sub, i)
  }

  /** `sub` occurs in `s` starting at index `i`. */
  predicate OccursAt(s: string, sub: string, i: nat) {
    i + |sub| <= |s| && s[i..i + |sub|] == sub
  }

  lemma ContainsEmpty(s: string)
    ensures Contains(s, "")
  {
    assert OccursAt(s, "", 0);
  }

  /** Case-insensitive `includes`, as the searches write it:
      `s.toLowerCase().includes(q.toLowerCase())`. */
  predicate Matches(s: string, q: string) {
    Contains(Lower(s), Lower(q))
  }

  lemma MatchesEmpty(s: string)
    ensures Matches(s, "")
  {
    ContainsEmpty(Lower(s));
  }

  /** `s.startsWith(p)`. */
  predicate StartsWith(s: string, p: string) {
    |p| <= |s| && s[..|p|] == p
  }

  /** `s.split(sep)` for a one-character separator. */
  function Split(s: string, sep: char): (r: seq<string>)
    ensures |r| >= 1
    ensures forall k :: 0 <= k < |r| ==> sep !in r[k]
  {
    if s == [] then [[]]
    else
      var rest := Split(s[1..], sep);
      if s[0] == sep then [[]] + rest else [[s[0]] + rest[0]] + rest[1..]
  }

  /** `pieces.join(sep)` for a one-character separator. */
  function Join(pieces: seq<string>, sep: char): string
    requires |pieces| >= 1
  {
    if |pieces| == 1 then pieces[0] else pieces[0] + [sep] + Join(pieces[1..], sep)
  }

  /** `pieces.join('')`. */
  function Concat(pieces: seq<string>): (r: string)
    ensures pieces == [] ==> r == []
  {
    if pieces == [] then [] else Concat(pieces[..|pieces| - 1]) + pieces[|pieces| - 1]
  }

  /** Joining the pieces of a split gives back the string. */
  lemma {:induction false} JoinSplit(s: string, sep: char)
    ensures Join(Split(s, sep), sep) == s
  {
    if s != [] {
      JoinSplit(s[1..], sep);
      var rest := Split(s[1..], sep);
      if s[0] != sep {
        var r := Split(s, sep);
        assert r[1..] == rest[1..];
        if |rest| > 1 {
          assert Join(rest, sep) == rest[0] + [sep] + Join(rest[1..], sep);
        }
      } else {
        assert Split(s, sep)[1..] == rest;
      }
    }
  }

  /** Splitting a join of separator-free pieces gives back the pieces. */
  lemma {:induction false} SplitJoin(pieces: seq<string>, sep: char)
    requires |pieces| >= 1
    requires forall k :: 0 <= k < |pieces| ==> sep !in pieces[k]
    ensures Split(Join(pieces, sep), sep) == pieces
  {
    if |pieces| == 1 {
      SplitNoSep(pieces[0], [], sep);
      assert pieces[0] + [] == pieces[0];
    } else {
      SplitJoin(pieces[1..], sep);
      var tail := [sep] + Join(pieces[1..], sep);
      SplitNoSep(pieces[0], tail, sep);
      assert tail[1..] == Join(pieces[1..], sep);
      var st := Split(tail, sep);
      assert st == [[]] + pieces[1..];
      assert st[0] == [] && st[1..] == pieces[1..];
      assert Join(pieces, sep) == pieces[0] + tail;
      assert pieces[0] + st[0] == pieces[0];
      assert pieces == [pieces[0]] + pieces[1..];
    }
  }

  /** A separator-free head joins onto the first piece of the rest. */
  lemma {:induction false} SplitNoSep(a: string, b: string, sep: char)
    requires sep !in a
    ensures var sb := Split(b, sep); Split(a + b, sep) == [a + sb[0]] + sb[1..]
  {
    var sb := Split(b, sep);
    if a != [] {
      var x, t := a[0], a[1..];
      var st := Split(t + b, sep);
      calc {
        Split(a + b, sep);
      == { assert a + b == [x] + (t + b); assert ([x] + (t + b))[1..] == t + b; }
        [[x] + st[0]] + st[1..];
      == { SplitNoSep(t, b, sep); assert st[0] == t + sb[0] && st[1..] == sb[1..]; }
        [[x] + (t + sb[0])] + sb[1..];
      == { assert [x] + (t + sb[0]) == ([x] + t) + sb[0]; assert a == [x] + t; }
        [a + sb[0]] + sb[1..];
      }
    } else {
      assert a + b == b;
      assert a + sb[0] == sb[0];
      assert [a + sb[0]] + sb[1..] == sb;
    }
  }

  /** `s.replace(/c/g, rep)` for a single character `c`. */
  function ReplaceChar(s: string, c: char, rep: string): string {
    if s == [] then [] else (if s[0] == c then rep else [s[0]]) + ReplaceChar(s[1..], c, rep)
  }

  /** A replacement without `c` leaves no `c` behind. */
  lemma {:induction false} ReplaceCharRemoves(s: string, c: char, rep: string)
    requires c !in rep
    ensures c !in ReplaceChar(s, c, rep)
  {
    if s != [] {
      ReplaceCharRemoves(s[1..], c, rep);
    }
  }

  /** A string without `c` is left as it is. */
  lemma {:induction false} ReplaceCharNoOp(s: string, c: char, rep: string)
    requires c !in s
    ensures ReplaceChar(s, c, rep) == s
  {
    if s != [] {
      ReplaceCharNoOp(s[1..], c, rep);
      assert s == [s[0]] + s[1..];
    }
  }

  /** One step of `ReplaceChar` on a non-empty string. */
  lemma ReplaceCharUnfold(x: char, t: string, c: char, rep: string)
    ensures ReplaceChar([x] + t, c, rep) == (if x == c then rep else [x]) + ReplaceChar(t, c, rep)
  {
    assert ([x] + t)[0] == x;
    assert ([x] + t)[1..] == t;
  }

  /** Replacing in a one-character string. */
  lemma ReplaceCharSingle(x: char, c: char, rep: string)
    ensures ReplaceChar([x], c, rep) == if x == c then rep else [x]
  {
    ReplaceCharUnfold(x, [], c, rep);
    assert [x] + [] == [x];
  }

  /** Replacing distributes over concatenation. */
  lemma {:induction false} ReplaceCharAppend(a: string, b: string, c: char, rep: string)
    ensures ReplaceChar(a + b, c, rep) == ReplaceChar(a, c, rep) + ReplaceChar(b, c, rep)
  {
    if a == [] {
      assert a + b == b;
    } else {
      var x, t := a[0], a[1..];
      var h := if x == c then rep else [x];
      calc {
        ReplaceChar(a + b, c, rep);
      == { assert a + b == [x] + (t + b); ReplaceCharUnfold(x, t + b, c, rep); }
        h + ReplaceChar(t + b, c, rep);
      == { ReplaceCharAppend(t, b, c, rep); }
        h + (ReplaceChar(t, c, rep) + ReplaceChar(b, c, rep));
      ==
        (h + ReplaceChar(t, c, rep)) + ReplaceChar(b, c, rep);
      == { assert a == [x] + t; ReplaceCharUnfold(x, t, c, rep); }
        ReplaceChar(a, c, rep) + ReplaceChar(b, c, rep);
      }
    }
  }

  /** A character found in neither the string nor the replacement is not in the result. */
  lemma {:induction false} ReplaceCharAbsent(s: string, c: char, rep: string, x: char)
    requires x !in s && x !in rep
    ensures x !in ReplaceChar(s, c, rep)
  {
    if s != [] {
      ReplaceCharAbsent(s[1..], c, rep, x);
      assert x != s[0];
    }
  }

  /** `s.lastIndexOf(c)`: the last index holding `c`, or -1. */
  function LastIndexOf(s: string, c: char): (r: int)
    ensures -1 <= r < |s|
    ensures r >= 0 ==> s[r] == c
    ensures forall j :: r < j < |s| ==> s[j] != c
  {
    if s == [] then -1 else if s[|s| - 1] == c then |s| - 1 else LastIndexOf(s[..|s| - 1], c)
  }
}
