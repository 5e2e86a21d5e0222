/**
 * The Python 2 `str` operations the scripts rely on, over `seq<char>`:
 * `find`, `in`, `startswith`, slicing, `split(sep)`, `split()`, `join`,
 * `replace`, `strip` and `lower`. Byte strings of Python 2 are modelled as
 * `string`; whitespace and case follow the C locale (ASCII only).
 */
module PyStr {

  /** `sub` occurs in `s` starting at position `i`. */
  predicate OccursAt(s: string, sub: string, i: int)
  {
    0 <= i && i + |sub| <= |s| && s[i..i + |sub|] == sub
  }

  /** `s.find(sub, start)`: -1, or a position at or after `start` where `sub` fits. */
  function Find(s: string, sub: string, start: nat): (r: int)
    ensures r == -1 || (start <= r && r + |sub| <= |s|)
    decreases |s| - start
  {
    if start + |sub| > |s| then -1
    else if s[start..start + |sub|] == sub then start
    else
      assert |sub| > 0;
      Find(s, sub, start + 1)
  }

  /** `find` returns the least position at or after `start` where `sub` occurs, and -1 only when there is none. */
  lemma {:induction false} FindLeast(s: string, sub: string, start: nat)
    ensures Find(s, sub, start) != -1 ==> OccursAt(s, sub, Find(s, sub, start))
    ensures forall i :: start <= i && (Find(s, sub, start) == -1 || i < Find(s, sub, start)) ==> !OccursAt(s, sub, i)
    decreases |s| - start
  {
    if start + |sub| <= |s| && s[start..start + |sub|] != sub {
      FindLeast(s, sub, start + 1);
    }
  }

  /** `sub in s`. */
  predicate Contains(s: string, sub: string)
  {
    Find(s, sub, 0) != -1
  }

  /** `sub in s` holds exactly when `sub` occurs somewhere in `s`. */
  lemma ContainsOccurs(s: string, sub: string)
    ensures Contains(s, sub) <==> exists i :: OccursAt(s, sub, i)
  {
    FindLeast(s, sub, 0);
  }

  /** `s.startswith(p)`. */
  predicate StartsWith(s: string, p: string)
  {
    |p| <= |s| && s[..|p|] == p
  }

  /** A Python slice bound: negative values count from the end, then clamped to `[0, n]`. */
  function SliceBound(i: int, n: nat): (r: nat)
    ensures r <= n
    ensures 0 <= i <= n ==> r == i
  {
    if i < 0 then (if i + n < 0 then 0 else i + n)
    else if i > n then n
    else i
  }

  /** `s[a:b]` for a string or a list: empty unless the normalised bounds are increasing. */
  function Slice<T>(s: seq<T>, a: int, b: int): (r: seq<T>)
    ensures |r| <= |s|
    ensures 0 <= a <= b <= |s| ==> r == s[a..b]
    ensures 0 <= b <= a ==> r == []
  {
    var lo, hi := SliceBound(a, |s|), SliceBound(b, |s|);
    if lo < hi then s[lo..hi] else []
  }

  /** `s.split(c)` for a one-character separator: every separator ends a piece. */
  function SplitOn(s: string, c: char): (r: seq<string>)
    ensures |r| >= 1
    ensures forall piece :: piece in r ==> c !in piece
  {
    if |s| == 0 then [""]
    else
      var rest := SplitOn(s[1..], c);
      if s[0] == c then [""] + rest
      else [[s[0]] + rest[0]] + rest[1..]
  }

  /** `sep.join(parts)`. */
  function Join(sep: string, parts: seq<string>): string
  {
    if |parts| == 0 then ""
    else if |parts| == 1 then parts[0]
    else parts[0] + sep + Join(sep, parts[1..])
  }

  /** Splitting on `c` and joining the pieces with `c` gives back the string. */
  lemma {:induction false} SplitJoin(s: string, c: char)
    ensures Join([c], SplitOn(s, c)) == s
  {
    if |s| > 0 {
      var rest := SplitOn(s[1..], c);
      SplitJoin(s[1..], c);
      if s[0] == c {
        assert Join([c], [""] + rest) == "" + [c] + Join([c], rest);
      } else if |rest| == 1 {
        assert Join([c], [[s[0]] + rest[0]] + rest[1..]) == [s[0]] + rest[0];
      } else {
        assert ([[s[0]] + rest[0]] + rest[1..])[1..] == rest[1..];
        assert Join([c], rest) == rest[0] + [c] + Join([c], rest[1..]);
      }
    }
  }

  /** `str.isspace` on one character of a Python 2 byte string. */
  predicate IsSpace(ch: char)
  {
    ch == ' ' || ch == '\t' || ch == '\n' || ch == '\r' || ch == '\U{000B}' || ch == '\U{000C}'
  }

  /** A string with no whitespace in it. */
  predicate NoSpace(w: string)
  {
    forall i :: 0 <= i < |w| ==> !IsSpace(w[i])
  }

  /** The end of the run of non-whitespace characters that starts at `i`. */
  function WordEnd(s: string, i: nat): (r: nat)
    requires i <= |s|
    ensures i <= r <= |s|
    ensures NoSpace(s[i..r])
    ensures r == |s| || IsSpace(s[r])
    decreases |s| - i
  {
    if i == |s| || IsSpace(s[i]) then i else WordEnd(s, i + 1)
  }

  /** `s.split()`: the maximal runs of non-whitespace characters, in order. */
  function Words(s: string): seq<string>
    decreases |s|
  {
    if |s| == 0 then []
    else if IsSpace(s[0]) then Words(s[1..])
    else
      var n := WordEnd(s, 0);
      [s[..n]] + Words(s[n..])
  }

  /** Every token of `s.split()` is non-empty and holds no whitespace. */
  lemma {:induction false} WordsAreTokens(s: string)
    ensures forall w :: w in Words(s) ==> |w| > 0 && NoSpace(w)
    decreases |s|
  {
    if |s| > 0 {
      if IsSpace(s[0]) {
        WordsAreTokens(s[1..]);
      } else {
        WordsAreTokens(s[WordEnd(s, 0)..]);
      }
    }
  }

  /** The strings of `ws` written one after another. */
  function Concat(ws: seq<string>): string
  {
    if ws == [] then [] else ws[0] + Concat(ws[1..])
  }

  /** `s` with every whitespace character dropped. */
  function DropSpace(s: string): string
  {
    if s == [] then [] else (if IsSpace(s[0]) then [] else [s[0]]) + DropSpace(s[1..])
  }

  lemma {:induction false} DropSpaceAppend(a: string, b: string)
    ensures DropSpace(a + b) == DropSpace(a) + DropSpace(b)
  {
    if a != [] {
      var head: string := if IsSpace(a[0]) then [] else [a[0]];
      assert (a + b)[0] == a[0] && (a + b)[1..] == a[1..] + b;
      DropSpaceAppend(a[1..], b);
      assert head + (DropSpace(a[1..]) + DropSpace(b)) == (head + DropSpace(a[1..])) + DropSpace(b);
    } else {
      assert a + b == b;
    }
  }

  lemma {:induction false} DropSpaceNoSpace(w: string)
    requires NoSpace(w)
    ensures DropSpace(w) == w
  {
    if w != [] {
      DropSpaceNoSpace(w[1..]);
    }
  }

  /** The tokens of `s.split()` are the characters of `s` other than whitespace, in order. */
  lemma {:induction false} WordsConcat(s: string)
    ensures Concat(Words(s)) == DropSpace(s)
    decreases |s|
  {
    if |s| > 0 {
      if IsSpace(s[0]) {
        WordsConcat(s[1..]);
      } else {
        var n := WordEnd(s, 0);
        WordsConcat(s[n..]);
        assert s == s[..n] + s[n..];
        DropSpaceAppend(s[..n], s[n..]);
        DropSpaceNoSpace(s[..n]);
        assert ([s[..n]] + Words(s[n..]))[1..] == Words(s[n..]);
      }
    }
  }

  /** `s.replace(pat, rep)`: non-overlapping occurrences, left to right. */
  function Replace(s: string, pat: string, rep: string): string
    requires |pat| > 0
    decreases |s|
  {
    if |s| < |pat| then s
    else if s[..|pat|] == pat then rep + Replace(s[|pat|..], pat, rep)
    else [s[0]] + Replace(s[1..], pat, rep)
  }

  /** Replacing a one-character pattern by nothing removes every copy of that character. */
  lemma {:induction false} RemoveCharGone(s: string, pat: string)
    requires |pat| == 1
    ensures pat[0] !in Replace(s, pat, "")
    ensures |Replace(s, pat, "")| <= |s|
    decreases |s|
  {
    if |s| >= |pat| {
      if s[..1] == pat {
        RemoveCharGone(s[1..], pat);
      } else {
        RemoveCharGone(s[1..], pat);
        assert s[0] != pat[0] by { assert s[..1] == [s[0]]; }
      }
    }
  }

  /** `s` with every copy of `c` dropped. */
  function Without(s: string, c: char): string
  {
    if s == [] then [] else (if s[0] == c then [] else [s[0]]) + Without(s[1..], c)
  }

  /** Replacing a one-character pattern by nothing keeps every other character, in order. */
  lemma {:induction false} RemoveCharKeepsRest(s: string, c: char)
    ensures Replace(s, [c], "") == Without(s, c)
    decreases |s|
  {
    if |s| > 0 {
      RemoveCharKeepsRest(s[1..], c);
      assert s[..1] == [s[0]];
    }
  }

  /** Replacing by nothing never makes a string longer. */
  lemma {:induction false} ReplaceShrinks(s: string, pat: string)
    requires |pat| > 0
    ensures |Replace(s, pat, "")| <= |s|
    decreases |s|
  {
    if |s| >= |pat| {
      if s[..|pat|] == pat {
        ReplaceShrinks(s[|pat|..], pat);
      } else {
        ReplaceShrinks(s[1..], pat);
      }
    }
  }

  /** `replace` brings in no character that is absent from both the string and the replacement. */
  lemma {:induction false} ReplaceKeepsOut(s: string, pat: string, rep: string, c: char)
    requires |pat| > 0 && c !in s && c !in rep
    ensures c !in Replace(s, pat, rep)
    decreases |s|
  {
    if |s| >= |pat| {
      if s[..|pat|] == pat {
        ReplaceKeepsOut(s[|pat|..], pat, rep, c);
      } else {
        ReplaceKeepsOut(s[1..], pat, rep, c);
      }
    }
  }

  /** When `pat` does not occur, `replace` leaves the string as it is. */
  lemma {:induction false} ReplaceAbsent(s: string, pat: string, rep: string)
    requires |pat| > 0 && !Contains(s, pat)
    ensures Replace(s, pat, rep) == s
    decreases |s|
  {
    ContainsOccurs(s, pat);
    if |s| >= |pat| {
      assert !OccursAt(s, pat, 0);
      forall i | OccursAt(s[1..], pat, i) ensures OccursAt(s, pat, i + 1) {
        assert s[i + 1..i + 1 + |pat|] == s[1..][i..i + |pat|];
      }
      ContainsOccurs(s[1..], pat);
      ReplaceAbsent(s[1..], pat, rep);
    }
  }

  /** `s.lstrip()`. */
  function StripLeft(s: string): (r: string)
    ensures |r| <= |s| && r == s[|s| - |r|..]
    ensures r == [] || !IsSpace(r[0])
    ensures forall i :: 0 <= i < |s| - |r| ==> IsSpace(s[i])
  {
    if |s| > 0 && IsSpace(s[0]) then StripLeft(s[1..]) else s
  }

  /** `s.rstrip()`. */
  function StripRight(s: string): (r: string)
    ensures |r| <= |s| && r == s[..|r|]
    ensures r == [] || !IsSpace(r[|r| - 1])
    ensures forall i :: |r| <= i < |s| ==> IsSpace(s[i])
  {
    if |s| > 0 && IsSpace(s[|s| - 1]) then StripRight(s[..|s| - 1]) else s
  }

  /** `s.strip()`: no whitespace is left at either end. */
  function Strip(s: string): (r: string)
    ensures |r| <= |s|
    ensures r == [] || (!IsSpace(r[0]) && !IsSpace(r[|r| - 1]))
  {
    StripRight(StripLeft(s))
  }

  predicate IsUpper(ch: char)
  {
    'A' <= ch <= 'Z'
  }

  function LowerChar(ch: char): (r: char)
    ensures !IsUpper(r)
    ensures !IsUpper(ch) ==> r == ch
    ensures IsUpper(ch) ==> 'a' <= r <= 'z'
  {
    if IsUpper(ch) then (ch as int + 32) as char else ch
  }

  /** `s.lower()`: every ASCII capital letter replaced by its small letter. */
  function Lower(s: string): (r: string)
    ensures |r| == |s|
    ensures forall i :: 0 <= i < |r| ==> !IsUpper(r[i])
  {
    seq(|s|, i requires 0 <= i < |s| => LowerChar(s[i]))
  }

  /** The elements of a sequence are pairwise distinct. */
  predicate NoDuplicates<T(==)>(s: seq<T>)
  {
    forall i, j :: 0 <= i < j < |s| ==> s[i] != s[j]
  }

  /** `list(set(s))`: the distinct elements of `s`, here in order of first occurrence. */
  function Distinct(s: seq<string>): (r: seq<string>)
    ensures NoDuplicates(r)
    ensures forall x :: x in r <==> x in s
  {
    if s == [] then []
    else
      var prev := Distinct(s[..|s| - 1]);
      var last := s[|s| - 1];
      assert forall x :: x in s <==> x in s[..|s| - 1] || x == last;
      if last in prev then prev else prev + [last]
  }
}
