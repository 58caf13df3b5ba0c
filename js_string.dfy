/**
 * The few JavaScript `String` built-ins the application relies on, on
 * `seq<char>`: `startsWith`, `indexOf`, `split` on one character,
 * `Array.prototype.join`, `includes`, `trim` and `toLowerCase` (the last on
 * ASCII letters only).
 */
module JsString {
  import opened Wrappers

  /** `s.startsWith(prefix)`. */
  predicate StartsWith(s: string, prefix: string) {
    |prefix| <= |s| && s[..|prefix|] == prefix
  }

  /** `s.indexOf(c, from)`, with -1 written as `None`. */
  function IndexOfFrom(s: string, c: char, from: nat): (r: Option<nat>)
    ensures r.Some? ==> from <= r.value < |s| && s[r.value] == c
    ensures r.Some? ==> forall k :: from <= k < r.value ==> s[k] != c
    ensures r.None? <==> forall k :: from <= k < |s| ==> s[k] != c
    decreases |s| - from
  {
    if from >= |s| then None
    else if s[from] == c then Some(from)
    else IndexOfFrom(s, c, from + 1)
  }

  /** The number of occurrences of `c` in `s`. */
  function Count(s: string, c: char): nat
  {
    if s == [] then 0 else (if s[0] == c then 1 else 0) + Count(s[1..], c)
  }

  /** `parts.join(c)`. */
  function Join(parts: seq<string>, c: char): string
  {
    if |parts| == 0 then ""
    else if |parts| == 1 then parts[0]
    else parts[0] + [c] + Join(parts[1..], c)
  }

  /**
   * `s.split(c)` for a one-character separator: the maximal pieces of `s`
   * between occurrences of `c`, so that joining them with `c` gives `s` back.
   */
  function Split(s: string, c: char): (parts: seq<string>)
    ensures |parts| >= 1
    ensures forall i :: 0 <= i < |parts| ==> c !in parts[i]
    ensures Join(parts, c) == s
    decreases |s|
  {
    match IndexOfFrom(s, c, 0)
    case None => [s]
    case Some(i) =>
      var rest := Split(s[i + 1..], c);
      assert c !in s[..i] by {
        forall k | 0 <= k < i ensures s[..i][k] != c { }
      }
      assert s[..i] + [c] + s[i + 1..] == s;
      [s[..i]] + rest
  }

  /** `split` yields one piece more than there are separators. */
  lemma {:induction false} SplitCount(s: string, c: char)
    ensures |Split(s, c)| == Count(s, c) + 1
    decreases |s|
  {
    match IndexOfFrom(s, c, 0)
    case None =>
      NoOccurrenceCount(s, c);
    case Some(i) =>
      SplitCount(s[i + 1..], c);
      CountAppend(s[..i], [c] + s[i + 1..], c);
      CountAppend([c], s[i + 1..], c);
      NoOccurrenceCount(s[..i], c);
      assert s[..i] + ([c] + s[i + 1..]) == s;
  }

  lemma {:induction false} NoOccurrenceCount(s: string, c: char)
    requires c !in s
    ensures Count(s, c) == 0
  {
    if s != [] {
      assert s[0] != c;
      NoOccurrenceCount(s[1..], c);
    }
  }

  lemma {:induction false} CountAppend(a: string, b: string, c: char)
    ensures Count(a + b, c) == Count(a, c) + Count(b, c)
  {
    if a != [] {
      assert (a + b)[1..] == a[1..] + b;
      CountAppend(a[1..], b, c);
    } else {
      assert a + b == b;
    }
  }

  /**
   * `split` is the only way to cut `s` into pieces free of `c` that join back
   * to `s`: any such cutting is the one `split` produces.
   */
  lemma {:induction false} SplitUnique(s: string, c: char, parts: seq<string>)
    requires |parts| >= 1
    requires forall i :: 0 <= i < |parts| ==> c !in parts[i]
    requires Join(parts, c) == s
    ensures parts == Split(s, c)
    decreases |s|
  {
    if |parts| == 1 {
      assert c !in s;
      assert IndexOfFrom(s, c, 0).None? by {
        forall k | 0 <= k < |s| ensures s[k] != c { assert s[k] in s; }
      }
    } else {
      var p := parts[0];
      var tail := Join(parts[1..], c);
      assert s == p + [c] + tail;
      assert s[|p|] == c;
      assert forall k :: 0 <= k < |p| ==> s[k] == p[k];
      assert forall k :: 0 <= k < |p| ==> s[k] != c by {
        forall k | 0 <= k < |p| ensures s[k] != c { assert p[k] in p; }
      }
      var r := IndexOfFrom(s, c, 0);
      assert r == Some(|p|);
      assert s[..|p|] == p;
      assert s[|p| + 1..] == tail;
      SplitUnique(tail, c, parts[1..]);
    }
  }

  /** Splitting `x + [c] + y`, where `x` is free of `c`, cuts at that `c`. */
  lemma SplitAtFirst(x: string, c: char, y: string)
    requires c !in x
    ensures Split(x + [c] + y, c) == [x] + Split(y, c)
  {
    var s := x + [c] + y;
    var parts := [x] + Split(y, c);
    assert parts[1..] == Split(y, c);
    assert Join(parts, c) == s by {
      if |Split(y, c)| == 1 {
        assert Join(parts[1..], c) == y;
      }
    }
    SplitUnique(s, c, parts);
  }

  /**
   * The first piece of a join is a prefix of it, followed by the separator
   * when there are more pieces and by nothing when there are none.
   */
  lemma {:induction false} JoinStartsWithFirst(parts: seq<string>, c: char)
    requires |parts| >= 1
    ensures StartsWith(Join(parts, c), parts[0])
    ensures |parts| == 1 ==> Join(parts, c) == parts[0]
    ensures |parts| >= 2 ==> |Join(parts, c)| > |parts[0]| && Join(parts, c)[|parts[0]|] == c
  {
    if |parts| > 1 {
      assert Join(parts, c) == parts[0] + ([c] + Join(parts[1..], c));
    }
  }

  /**
   * `s.split(c)[1]` of a string holding `c` is the text after the first `c`
   * up to the next one, and all of the rest when there is no other: a
   * `c`-free prefix of that text that ends where the text ends or at a `c`.
   */
  lemma SplitSecondPiece(s: string, c: char)
    requires c in s
    ensures var first := IndexOfFrom(s, c, 0);
      && first.Some? && |Split(s, c)| >= 2
      && StartsWith(s[first.value + 1..], Split(s, c)[1])
      && (first.value + 1 + |Split(s, c)[1]| == |s| || s[first.value + 1 + |Split(s, c)[1]|] == c)
      && (Count(s, c) == 1 ==> Split(s, c)[1] == s[first.value + 1..])
  {
    var first := IndexOfFrom(s, c, 0);
    var i := first.value;
    var head, rest := s[..i], s[i + 1..];
    assert s == head + [c] + rest;
    assert c !in head by {
      forall m | 0 <= m < i ensures head[m] != c { }
    }
    SplitAtFirst(head, c, rest);
    var p := Split(rest, c);
    assert Split(s, c)[1] == p[0];
    JoinStartsWithFirst(p, c);
    if Count(s, c) == 1 {
      SplitCount(s, c);
      assert |p| == 1;
    }
  }

  /** Two pieces free of `c`, joined by `c`, split back into those two. */
  lemma SplitTwoPieces(x: string, c: char, y: string)
    requires c !in x && c !in y
    ensures Split(x + [c] + y, c) == [x, y]
  {
    SplitAtFirst(x, c, y);
    assert IndexOfFrom(y, c, 0).None?;
  }

  /** `s.includes(sub)`: `sub` occurs somewhere in `s`. */
  predicate Includes(s: string, sub: string)
    decreases |s|
  {
    StartsWith(s, sub) || (|s| > 0 && Includes(s[1..], sub))
  }

  /** `includes` holds exactly when `sub` sits at some offset of `s`. */
  lemma {:induction false} IncludesIff(s: string, sub: string)
    ensures Includes(s, sub) <==> exists i :: 0 <= i <= |s| - |sub| && StartsWith(s[i..], sub)
    decreases |s|
  {
    if |s| > 0 {
      IncludesIff(s[1..], sub);
      if Includes(s[1..], sub) {
        var i :| 0 <= i <= |s[1..]| - |sub| && StartsWith(s[1..][i..], sub);
        assert s[1..][i..] == s[i + 1..];
      }
      if j :| 0 <= j <= |s| - |sub| && StartsWith(s[j..], sub) {
        if j > 0 {
          assert s[j..] == s[1..][j - 1..];
        }
      }
    }
    if StartsWith(s, sub) {
      assert s[0..] == s;
    }
  }

  /** Every character of an included string occurs in the including one. */
  lemma {:induction false} IncludesKeepsChar(s: string, sub: string, ch: char)
    requires ch in sub
    ensures Includes(s, sub) ==> ch in s
    decreases |s|
  {
    if StartsWith(s, sub) {
      var k :| 0 <= k < |sub| && sub[k] == ch;
      assert s[k] == ch;
    }
    if |s| > 0 {
      IncludesKeepsChar(s[1..], sub, ch);
      assert Includes(s[1..], sub) && ch in s[1..] ==> ch in s;
    }
  }

  /** JavaScript truthiness of a `string | null`: present and not empty. */
  predicate Truthy(s: Option<string>) {
    s.Some? && s.value != ""
  }

  /** ECMAScript line terminators: LF, CR, LINE SEPARATOR, PARAGRAPH SEPARATOR. */
  predicate IsLineTerminator(ch: char) {
    ch as int == 0x0A || ch as int == 0x0D || ch as int == 0x2028 || ch as int == 0x2029
  }

  /**
   * What `trim` removes: ECMAScript white space (TAB, VT, FF, ZWNBSP and the
   * space separators of Unicode category Zs) and the line terminators.
   */
  predicate IsTrimmable(ch: char) {
    var n := ch as int;
    || n == 0x09 || n == 0x0B || n == 0x0C || n == 0xFEFF
    || n == 0x20 || n == 0xA0 || n == 0x1680 || (0x2000 <= n <= 0x200A)
    || n == 0x202F || n == 0x205F || n == 0x3000
    || IsLineTerminator(ch)
  }

  /** `s.trimStart()`. */
  function TrimStart(s: string): (r: string)
    ensures r == "" || !IsTrimmable(r[0])
  {
    if |s| > 0 && IsTrimmable(s[0]) then TrimStart(s[1..]) else s
  }

  /** `s.trimEnd()`. */
  function TrimEnd(s: string): string
  {
    if |s| > 0 && IsTrimmable(s[|s| - 1]) then TrimEnd(s[..|s| - 1]) else s
  }

  /** `s.trim()`. */
  function Trim(s: string): string
  {
    TrimEnd(TrimStart(s))
  }

  predicate AllTrimmable(s: string) {
    forall k :: 0 <= k < |s| ==> IsTrimmable(s[k])
  }

  /** `trim()` gives the empty string exactly when every character is white space. */
  lemma {:induction false} TrimEmptyIff(s: string)
    ensures Trim(s) == "" <==> AllTrimmable(s)
  {
    TrimStartEmptyIff(s);
    var t := TrimStart(s);
    TrimEndEmptyIff(t);
    if AllTrimmable(t) {
      assert t == "";
    }
  }

  lemma {:induction false} TrimStartEmptyIff(s: string)
    ensures TrimStart(s) == "" <==> AllTrimmable(s)
  {
    if |s| > 0 && IsTrimmable(s[0]) {
      TrimStartEmptyIff(s[1..]);
      assert AllTrimmable(s) <==> AllTrimmable(s[1..]) by {
        if AllTrimmable(s[1..]) {
          forall k | 0 <= k < |s| ensures IsTrimmable(s[k]) {
            if k > 0 { assert s[k] == s[1..][k - 1]; }
          }
        }
      }
    } else if |s| > 0 {
      assert !AllTrimmable(s);
    }
  }

  lemma {:induction false} TrimEndEmptyIff(s: string)
    ensures TrimEnd(s) == "" <==> AllTrimmable(s)
  {
    if |s| > 0 && IsTrimmable(s[|s| - 1]) {
      var front := s[..|s| - 1];
      TrimEndEmptyIff(front);
      assert AllTrimmable(s) <==> AllTrimmable(front) by {
        if AllTrimmable(front) {
          forall k | 0 <= k < |s| ensures IsTrimmable(s[k]) {
            if k < |s| - 1 { assert s[k] == front[k]; }
          }
        }
      }
    } else if |s| > 0 {
      assert !AllTrimmable(s);
    }
  }

  /** `toLowerCase` on one character, ASCII letters only. */
  function LowerChar(ch: char): char {
    if 'A' <= ch <= 'Z' then (ch as int + 32) as char else ch
  }

  /** `s.toLowerCase()`, ASCII letters only. */
  function ToLower(s: string): (r: string)
    ensures |r| == |s|
    ensures forall k :: 0 <= k < |s| ==> r[k] == LowerChar(s[k])
  {
    seq(|s|, k requires 0 <= k < |s| => LowerChar(s[k]))
  }
}
