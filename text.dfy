/**
 * The JavaScript string operations the content script relies on:
 * `split` on a one-character separator, `includes`, `startsWith`,
 * `trim` and `toLowerCase`.
 */
module Text {

  /** Number of occurrences of `c` in `s`. */
  function Count(s: string, c: char): nat
  {
    if s == [] then 0 else (if s[0] == c then 1 else 0) + Count(s[1..], c)
  }

  /**
   * `s.split(sep)` for a one-character separator: the maximal pieces between
   * separators, one more than there are separators (so `""` splits to `[""]`).
   */
  function Split(s: string, sep: char): (parts: seq<string>)
    ensures |parts| == Count(s, sep) + 1
  {
    if s == [] then [""]
    else
      var rest := Split(s[1..], sep);
      if s[0] == sep then [""] + rest
      else [[s[0]] + rest[0]] + rest[1..]
  }

  /** No piece of a split contains the separator. */
  lemma {:induction false} SplitPiecesFree(s: string, sep: char)
    ensures forall i :: 0 <= i < |Split(s, sep)| ==> sep !in Split(s, sep)[i]
  {
    if s != [] {
      SplitPiecesFree(s[1..], sep);
      var rest := Split(s[1..], sep);
      var parts := Split(s, sep);
      if s[0] != sep {
        assert forall i :: 1 <= i < |parts| ==> parts[i] == rest[i];
        assert sep !in [s[0]] + rest[0];
      } else {
        assert forall i :: 1 <= i < |parts| ==> parts[i] == rest[i - 1];
      }
    }
  }

  /** `parts.join(sep)`: the inverse of `Split`. */
  function Join(parts: seq<string>, sep: char): string
    requires |parts| >= 1
  {
    if |parts| == 1 then parts[0] else parts[0] + [sep] + Join(parts[1..], sep)
  }

  lemma {:induction false} JoinSplit(s: string, sep: char)
    ensures Join(Split(s, sep), sep) == s
  {
    if s != [] {
      JoinSplit(s[1..], sep);
      var rest := Split(s[1..], sep);
      if s[0] != sep && |rest| > 1 {
        assert ([[s[0]] + rest[0]] + rest[1..])[1..] == rest[1..];
      }
    }
  }

  lemma {:induction false} SplitJoin(parts: seq<string>, sep: char)
    requires |parts| >= 1
    requires forall i :: 0 <= i < |parts| ==> sep !in parts[i]
    ensures Split(Join(parts, sep), sep) == parts
    decreases |parts|, |parts[0]|
  {
    if parts[0] == [] {
      if |parts| > 1 {
        SplitJoin(parts[1..], sep);
        assert Join(parts, sep) == [sep] + Join(parts[1..], sep);
        assert ([sep] + Join(parts[1..], sep))[1..] == Join(parts[1..], sep);
        assert parts == [""] + parts[1..];
      }
    } else {
      var tail := [parts[0][1..]] + parts[1..];
      assert sep !in tail[0];
      assert forall i :: 1 <= i < |tail| ==> tail[i] == parts[i];
      SplitJoin(tail, sep);
      var s := Join(parts, sep);
      assert s == [parts[0][0]] + Join(tail, sep) by {
        if |parts| > 1 {
          assert tail[1..] == parts[1..];
          assert s == parts[0] + [sep] + Join(parts[1..], sep);
          assert Join(tail, sep) == parts[0][1..] + [sep] + Join(parts[1..], sep);
        }
      }
      assert s[1..] == Join(tail, sep);
      assert s[0] == parts[0][0] != sep;
      assert parts[0] == [parts[0][0]] + tail[0];
      assert parts == [[parts[0][0]] + tail[0]] + tail[1..];
    }
  }

  /** Appending a separator adds one final empty piece. */
  lemma {:induction false} SplitSnocSep(s: string, sep: char)
    ensures Split(s + [sep], sep) == Split(s, sep) + [""]
  {
    if s == [] {
      assert Split([sep], sep) == [""] + Split([], sep);
    } else {
      assert (s + [sep])[1..] == s[1..] + [sep];
      SplitSnocSep(s[1..], sep);
    }
  }

  /** `sub` occurs in `s` at position `i`. */
  predicate OccursAt(s: string, sub: string, i: int)
  {
    0 <= i && i + |sub| <= |s| && s[i..i + |sub|] == sub
  }

  lemma OccursAtShift(s: string, sub: string, i: int)
    requires s != [] && 0 <= i
    ensures OccursAt(s[1..], sub, i) <==> OccursAt(s, sub, i + 1)
  {
    if 0 <= i && i + |sub| <= |s[1..]| {
      assert s[1..][i..i + |sub|] == s[i + 1..i + 1 + |sub|];
    }
  }

  /** `s.includes(sub)`, scanning the start positions left to right. */
  function Contains(s: string, sub: string): bool
    decreases |s|
  {
    if |sub| > |s| then false
    else if s[..|sub|] == sub then true
    else Contains(s[1..], sub)
  }

  /** `Contains` holds exactly when `sub` occurs somewhere in `s`; the empty string occurs everywhere. */
  lemma {:induction false} ContainsOccurs(s: string, sub: string)
    ensures Contains(s, sub) <==> exists i :: OccursAt(s, sub, i)
    decreases |s|
  {
    if |sub| > |s| {
      assert forall i :: !OccursAt(s, sub, i);
    } else if s[..|sub|] == sub {
      assert OccursAt(s, sub, 0);
    } else {
      ContainsOccurs(s[1..], sub);
      if Contains(s[1..], sub) {
        var i :| OccursAt(s[1..], sub, i);
        OccursAtShift(s, sub, i);
      }
      if exists i :: OccursAt(s, sub, i) {
        var i :| OccursAt(s, sub, i);
        assert i != 0;
        OccursAtShift(s, sub, i - 1);
      }
    }
  }

  /** `s.startsWith(prefix)`. */
  predicate StartsWith(s: string, prefix: string)
  {
    |prefix| <= |s| && s[..|prefix|] == prefix
  }

  /**
   * The characters `String.prototype.trim` removes: ECMAScript WhiteSpace
   * (TAB, VT, FF, ZWNBSP and every Zs space) and LineTerminator (LF, CR,
   * LS, PS).
   */
  predicate IsTrimmable(c: char)
  {
    c == '\t' || c == '\n' || c == '\U{B}' || c == '\U{C}' || c == '\r' || c == ' '
    || c == '\U{A0}' || c == '\U{1680}' || ('\U{2000}' <= c <= '\U{200A}')
    || c == '\U{2028}' || c == '\U{2029}' || c == '\U{202F}' || c == '\U{205F}'
    || c == '\U{3000}' || c == '\U{FEFF}'
  }

  predicate AllTrimmable(s: string)
  {
    forall i :: 0 <= i < |s| ==> IsTrimmable(s[i])
  }

  lemma AllTrimmableConcat(a: string, b: string)
    requires AllTrimmable(a) && AllTrimmable(b)
    ensures AllTrimmable(a + b)
  {
    forall k | 0 <= k < |a + b| ensures IsTrimmable((a + b)[k]) {
      if k < |a| {
        assert (a + b)[k] == a[k];
      } else {
        assert (a + b)[k] == b[k - |a|];
      }
    }
  }

  /** `s.trimStart()`: drops leading trimmable characters. */
  function TrimStart(s: string): (r: string)
    ensures |r| <= |s|
  {
    if s != [] && IsTrimmable(s[0]) then TrimStart(s[1..]) else s
  }

  /** `TrimStart` keeps a suffix, drops only trimmable characters, and stops at a kept one. */
  lemma {:induction false} TrimStartSpec(s: string)
    ensures var r := TrimStart(s);
            r == s[|s| - |r|..] && AllTrimmable(s[..|s| - |r|]) && (r == [] || !IsTrimmable(r[0]))
  {
    if s != [] && IsTrimmable(s[0]) {
      TrimStartSpec(s[1..]);
      var r := TrimStart(s[1..]);
      assert s[1..][|s[1..]| - |r|..] == s[|s| - |r|..];
      assert s[..|s| - |r|] == [s[0]] + s[1..][..|s[1..]| - |r|];
      AllTrimmableConcat([s[0]], s[1..][..|s[1..]| - |r|]);
    }
  }

  /** `s.trimEnd()`: drops trailing trimmable characters. */
  function TrimEnd(s: string): (r: string)
    ensures |r| <= |s|
  {
    if s != [] && IsTrimmable(s[|s| - 1]) then TrimEnd(s[..|s| - 1]) else s
  }

  /** `TrimEnd` keeps a prefix, drops only trimmable characters, and stops at a kept one. */
  lemma {:induction false} TrimEndSpec(s: string)
    ensures var r := TrimEnd(s);
            r == s[..|r|] && AllTrimmable(s[|r|..]) && (r == [] || !IsTrimmable(r[|r| - 1]))
  {
    if s != [] && IsTrimmable(s[|s| - 1]) {
      var init := s[..|s| - 1];
      TrimEndSpec(init);
      var r := TrimEnd(init);
      assert init[..|r|] == s[..|r|];
      assert s[|r|..] == init[|r|..] + [s[|s| - 1]];
      AllTrimmableConcat(init[|r|..], [s[|s| - 1]]);
    }
  }

  /** `s.trim()`. */
  function Trim(s: string): (r: string)
    ensures |r| <= |s|
  {
    TrimEnd(TrimStart(s))
  }

  /** `r` sits at offset `i` of `s` with only trimmable characters on either side. */
  predicate Surrounds(s: string, r: string, i: int)
  {
    0 <= i <= |s| - |r| && s[i..i + |r|] == r && AllTrimmable(s[..i]) && AllTrimmable(s[i + |r|..])
  }

  /**
   * `s` is `Trim(s)` surrounded by trimmable characters only, and neither
   * end of `Trim(s)` is trimmable.
   */
  lemma TrimSpec(s: string)
    ensures exists i :: Surrounds(s, Trim(s), i)
    ensures var r := Trim(s); r == [] || (!IsTrimmable(r[0]) && !IsTrimmable(r[|r| - 1]))
  {
    var t := TrimStart(s);
    var r := TrimEnd(t);
    TrimStartSpec(s);
    TrimEndSpec(t);
    var i := |s| - |t|;
    assert r == Trim(s);
    assert s[i..i + |r|] == r;
    assert s[i + |r|..] == t[|r|..];
    assert Surrounds(s, r, i);
    if r != [] {
      assert r[0] == t[0];
    }
  }

  lemma {:induction false} TrimStartAll(s: string)
    requires AllTrimmable(s)
    ensures TrimStart(s) == []
  {
    if s != [] {
      assert IsTrimmable(s[0]);
      assert AllTrimmable(s[1..]) by {
        forall k | 0 <= k < |s[1..]| ensures IsTrimmable(s[1..][k]) {
          assert s[1..][k] == s[k + 1];
        }
      }
      TrimStartAll(s[1..]);
    }
  }

  /** `Trim(s)` is empty exactly when all of `s` is trimmable. */
  lemma TrimEmpty(s: string)
    ensures Trim(s) == [] <==> AllTrimmable(s)
  {
    var t := TrimStart(s);
    TrimStartSpec(s);
    TrimEndSpec(t);
    var i := |s| - |t|;
    if TrimEnd(t) == [] {
      assert s == s[..i] + t;
      AllTrimmableConcat(s[..i], t);
    }
    if AllTrimmable(s) {
      TrimStartAll(s);
    }
  }

  /**
   * `toLowerCase` on one character, for the Basic Latin and Latin-1
   * ranges: A-Z and the Latin-1 capitals (U+00C0 to U+00DE except the
   * multiplication sign U+00D7) move down by 0x20; every other character
   * is left as it is.
   */
  function LowerChar(c: char): char
  {
    if IsUpper(c) then (c as int + 32) as char else c
  }

  predicate IsUpper(c: char)
  {
    ('A' <= c <= 'Z') || ('\U{C0}' <= c <= '\U{DE}' && c != '\U{D7}')
  }

  /** `s.toLowerCase()`. */
  function Lower(s: string): (r: string)
    ensures |r| == |s|
  {
    seq(|s|, i requires 0 <= i < |s| => LowerChar(s[i]))
  }

  /**
   * `Lower` leaves no capital behind, leaves lower-case text as it is, and
   * so is idempotent.
   */
  lemma LowerSpec(s: string)
    ensures forall i :: 0 <= i < |s| ==> !IsUpper(Lower(s)[i])
    ensures (forall i :: 0 <= i < |s| ==> !IsUpper(s[i])) ==> Lower(s) == s
    ensures Lower(Lower(s)) == Lower(s)
  {
  }
}
