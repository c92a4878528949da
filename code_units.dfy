/** UTF-16 code units: the unit that JavaScript strings, `slice`, `.length` and
    `split("")` count in. Both pages of the application treat text this way, so
    every string of the model is a `seq<u16>`. */
module CodeUnits {

  newtype u16 = x: int | 0 <= x < 0x1_0000

  const LF: u16 := 0x0A
  const SPACE: u16 := 0x20

  /** The code units of a string literal whose characters all lie in the Basic
      Multilingual Plane (each such character is one UTF-16 code unit). */
  function Units(s: string): seq<u16>
    requires forall i :: 0 <= i < |s| ==> s[i] as int < 0x1_0000
  {
    seq(|s|, i requires 0 <= i < |s| => s[i] as int as u16)
  }

  // ---------------------------------------------------------------------------
  // Supplementary-plane characters as surrogate pairs
  // ---------------------------------------------------------------------------

  predicate IsHighSurrogate(u: u16) { 0xD800 <= u <= 0xDBFF }
  predicate IsLowSurrogate(u: u16) { 0xDC00 <= u <= 0xDFFF }

  /** The two code units JavaScript stores for a code point above U+FFFF. */
  function SurrogatePair(cp: int): (r: seq<u16>)
    requires 0x1_0000 <= cp <= 0x10_FFFF
    ensures |r| == 2 && IsHighSurrogate(r[0]) && IsLowSurrogate(r[1])
    ensures 0x1_0000 + (r[0] as int - 0xD800) * 0x400 + (r[1] as int - 0xDC00) == cp
  {
    [(0xD800 + (cp - 0x1_0000) / 0x400) as u16, (0xDC00 + (cp - 0x1_0000) % 0x400) as u16]
  }

  // ---------------------------------------------------------------------------
  // Deleting code units: `String.prototype.replace(/[...]/g, '')`
  // ---------------------------------------------------------------------------

  /** The units of `s` that satisfy `keep`, in their original order. */
  function Filter(keep: u16 -> bool, s: seq<u16>): (r: seq<u16>)
    ensures |r| <= |s|
    ensures forall i :: 0 <= i < |r| ==> keep(r[i])
    ensures forall u :: u in r ==> u in s
  {
    if s == [] then [] else (if keep(s[0]) then [s[0]] else []) + Filter(keep, s[1..])
  }

  /** `a` is what remains of `b` after deleting some of its units. */
  ghost predicate IsSubsequence(a: seq<u16>, b: seq<u16>)
    decreases |b|
  {
    if a == [] then true
    else if b == [] then false
    else (a[0] == b[0] && IsSubsequence(a[1..], b[1..])) || IsSubsequence(a, b[1..])
  }

  lemma {:induction false} SubsequenceReflexive(s: seq<u16>)
    ensures IsSubsequence(s, s)
    decreases |s|
  {
    if s != [] {
      SubsequenceReflexive(s[1..]);
    }
  }

  lemma {:induction false} SubsequenceLength(a: seq<u16>, b: seq<u16>)
    requires IsSubsequence(a, b)
    ensures |a| <= |b|
    ensures |a| == |b| ==> a == b
    decreases |b|
  {
    if a != [] {
      if a[0] == b[0] && IsSubsequence(a[1..], b[1..]) {
        SubsequenceLength(a[1..], b[1..]);
        if |a| == |b| {
          assert a == [a[0]] + a[1..] && b == [b[0]] + b[1..];
        }
      } else {
        SubsequenceLength(a, b[1..]);
      }
    }
  }

  /** Deletions compose: deleting from what was already obtained by deleting. */
  lemma {:induction false} SubsequenceTransitive(a: seq<u16>, b: seq<u16>, c: seq<u16>)
    requires IsSubsequence(a, b) && IsSubsequence(b, c)
    ensures IsSubsequence(a, c)
    decreases |c|
  {
    if a != [] {
      assert b != [] && c != [];
      if b[0] == c[0] && IsSubsequence(b[1..], c[1..]) {
        if a[0] == b[0] && IsSubsequence(a[1..], b[1..]) {
          SubsequenceTransitive(a[1..], b[1..], c[1..]);
        } else {
          SubsequenceTransitive(a, b[1..], c[1..]);
        }
      } else {
        SubsequenceTransitive(a, b, c[1..]);
      }
    }
  }

  /** Deletions in two pieces give a deletion in the concatenation. */
  lemma {:induction false} SubsequenceAppend(a1: seq<u16>, b1: seq<u16>, a2: seq<u16>, b2: seq<u16>)
    requires IsSubsequence(a1, b1) && IsSubsequence(a2, b2)
    ensures IsSubsequence(a1 + a2, b1 + b2)
    decreases |b1| + |b2|
  {
    if b1 == [] {
      assert a1 == [] && a1 + a2 == a2 && b1 + b2 == b2;
    } else if a1 == [] {
      if a2 != [] {
        assert a1 + a2 == a2;
        if a2[0] == b2[0] && IsSubsequence(a2[1..], b2[1..]) {
          SubsequenceAppend([], b1[1..], a2, b2);
        } else {
          SubsequenceAppend([], b1[1..], a2, b2);
        }
        assert (b1 + b2)[1..] == b1[1..] + b2;
      }
    } else if a1[0] == b1[0] && IsSubsequence(a1[1..], b1[1..]) {
      SubsequenceAppend(a1[1..], b1[1..], a2, b2);
      assert (a1 + a2)[1..] == a1[1..] + a2 && (b1 + b2)[1..] == b1[1..] + b2;
    } else {
      SubsequenceAppend(a1, b1[1..], a2, b2);
      assert (b1 + b2)[1..] == b1[1..] + b2;
    }
  }

  lemma {:induction false} FilterAppend(keep: u16 -> bool, a: seq<u16>, b: seq<u16>)
    ensures Filter(keep, a + b) == Filter(keep, a) + Filter(keep, b)
    decreases |a|
  {
    if a == [] {
      assert a + b == b;
    } else {
      assert (a + b)[1..] == a[1..] + b;
      FilterAppend(keep, a[1..], b);
    }
  }

  /** Filtering only deletes units. */
  lemma {:induction false} FilterIsSubsequence(keep: u16 -> bool, s: seq<u16>)
    ensures IsSubsequence(Filter(keep, s), s)
    decreases |s|
  {
    if s != [] {
      FilterIsSubsequence(keep, s[1..]);
      var r := Filter(keep, s[1..]);
      if keep(s[0]) {
        assert ([s[0]] + r)[0] == s[0] && ([s[0]] + r)[1..] == r;
      } else {
        assert [] + r == r;
      }
    }
  }

  /** Filtering changes nothing exactly when every unit is kept. */
  lemma {:induction false} FilterUnchanged(keep: u16 -> bool, s: seq<u16>)
    ensures Filter(keep, s) == s <==> forall i :: 0 <= i < |s| ==> keep(s[i])
    decreases |s|
  {
    if s != [] {
      FilterUnchanged(keep, s[1..]);
      if forall i :: 0 <= i < |s| ==> keep(s[i]) {
        assert forall i :: 0 <= i < |s[1..]| ==> keep(s[1..][i]) by {
          forall i | 0 <= i < |s[1..]| ensures keep(s[1..][i]) { assert s[1..][i] == s[i + 1]; }
        }
        assert s == [s[0]] + s[1..];
      }
    }
  }

  lemma FilterIdempotent(keep: u16 -> bool, s: seq<u16>)
    ensures Filter(keep, Filter(keep, s)) == Filter(keep, s)
  {
    FilterUnchanged(keep, Filter(keep, s));
  }

  /** Slicing inside the first part of `a + [u] + b`. */
  lemma SliceOfFirst(a: seq<u16>, u: u16, b: seq<u16>, i: nat, j: nat)
    requires i <= j <= |a|
    ensures (a + [u] + b)[i..j] == a[i..j]
  {
  }

  /** Dropping a prefix of the first part of `a + [u] + b`. */
  lemma DropOfFirst(a: seq<u16>, u: u16, b: seq<u16>, i: nat)
    requires i <= |a|
    ensures (a + [u] + b)[i..] == a[i..] + [u] + b
  {
  }

  lemma Regroup(m: seq<u16>, x: seq<u16>, u: u16, y: seq<u16>)
    ensures m + (x + [u] + y) == (m + x) + [u] + y
  {
  }

  // ---------------------------------------------------------------------------
  // Lines and fields: joining with a separator and splitting on it
  // ---------------------------------------------------------------------------

  /** `parts` joined with `sep`, as a template literal writes them with a
      separator between consecutive parts. */
  function Join(sep: u16, parts: seq<seq<u16>>): seq<u16>
    requires |parts| > 0
    decreases |parts|
  {
    if |parts| == 1 then parts[0] else parts[0] + [sep] + Join(sep, parts[1..])
  }

  /** The pieces of `s` between occurrences of `sep` (like `s.split(sep)`). */
  function Split(sep: u16, s: seq<u16>): (parts: seq<seq<u16>>)
    ensures |parts| > 0
    ensures forall i :: 0 <= i < |parts| ==> sep !in parts[i]
    ensures Join(sep, parts) == s
    decreases |s|
  {
    if s == [] then [[]]
    else
      var rest := Split(sep, s[1..]);
      if s[0] == sep then
        assert Join(sep, [[]] + rest) == [] + [sep] + Join(sep, rest) by {
          assert ([[]] + rest)[1..] == rest;
        }
        [[]] + rest
      else
        var parts := [[s[0]] + rest[0]] + rest[1..];
        assert Join(sep, parts) == [s[0]] + Join(sep, rest) by {
          if |rest| > 1 {
            assert parts[1..] == rest[1..];
          }
        }
        assert s == [s[0]] + s[1..];
        parts
  }

  lemma {:induction false} SplitPrefix(sep: u16, a: seq<u16>, t: seq<u16>)
    requires sep !in a
    ensures Split(sep, a + t) == [a + Split(sep, t)[0]] + Split(sep, t)[1..]
    decreases |a|
  {
    if a == [] {
      var p := Split(sep, t);
      assert a + t == t && a + p[0] == p[0];
      assert [p[0]] + p[1..] == p;
    } else {
      assert (a + t)[0] == a[0] && (a + t)[1..] == a[1..] + t;
      SplitPrefix(sep, a[1..], t);
      assert [a[0]] + (a[1..] + Split(sep, t)[0]) == a + Split(sep, t)[0];
    }
  }

  /** Splitting undoes joining when no part contains the separator. */
  lemma {:induction false} SplitJoin(sep: u16, parts: seq<seq<u16>>)
    requires |parts| > 0
    requires forall i :: 0 <= i < |parts| ==> sep !in parts[i]
    ensures Split(sep, Join(sep, parts)) == parts
    decreases |parts|
  {
    if |parts| == 1 {
      SplitPrefix(sep, parts[0], []);
      assert parts[0] + [] == parts[0];
      assert parts == [parts[0]];
    } else {
      var tail := Join(sep, parts[1..]);
      SplitJoin(sep, parts[1..]);
      assert Split(sep, [sep] + tail) == [[]] + Split(sep, tail) by {
        assert ([sep] + tail)[1..] == tail;
      }
      assert Join(sep, parts) == parts[0] + ([sep] + tail);
      SplitPrefix(sep, parts[0], [sep] + tail);
      assert parts[0] + [] == parts[0];
      assert parts == [parts[0]] + parts[1..];
    }
  }
}
