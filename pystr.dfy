/**
 * The handful of Python string built-ins the generator relies on:
 * `sep.join(xs)`, `s.split(c)`, `s.strip()`, `os.path.basename(p)` and `part in text`.
 */
module PyStr {

  /** Number of occurrences of `c` in `s` (Python's `s.count(c)` for one character). */
  function CountChar(s: string, c: char): nat {
    if s == [] then 0 else (if s[0] == c then 1 else 0) + CountChar(s[1..], c)
  }

  lemma {:induction false} CountCharPositive(s: string, c: char)
    requires c in s
    ensures CountChar(s, c) >= 1
  {
    if s[0] != c {
      assert c in s[1..] by {
        var k :| 0 <= k < |s| && s[k] == c;
        assert s[1..][k - 1] == c;
      }
      CountCharPositive(s[1..], c);
    }
  }

  /** `sep.join(xs)` */
  function Join(xs: seq<string>, sep: string): string {
    if |xs| == 0 then ""
    else if |xs| == 1 then xs[0]
    else xs[0] + sep + Join(xs[1..], sep)
  }

  /**
   * `s.split(sep)` with an explicit one-character separator: every separator ends a piece,
   * nothing is trimmed and empty pieces are kept.
   */
  function Split(s: string, sep: char): (r: seq<string>)
    ensures |r| == CountChar(s, sep) + 1
    ensures forall k :: 0 <= k < |r| ==> sep !in r[k]
  {
    if s == [] then [""]
    else
      var rest := Split(s[1..], sep);
      if s[0] == sep then [""] + rest
      else [[s[0]] + rest[0]] + rest[1..]
  }

  /** Joining the pieces of a split with the separator gives back the original text. */
  lemma {:induction false} JoinSplit(s: string, sep: char)
    ensures Join(Split(s, sep), [sep]) == s
  {
    if s != [] {
      var rest := Split(s[1..], sep);
      JoinSplit(s[1..], sep);
      if s[0] == sep {
        assert ([""] + rest)[1..] == rest;
        assert s == [sep] + s[1..];
      } else if |rest| == 1 {
        assert s == [s[0]] + s[1..];
      } else {
        var r := [[s[0]] + rest[0]] + rest[1..];
        assert r[1..] == rest[1..];
        assert Join(rest, [sep]) == rest[0] + [sep] + Join(rest[1..], [sep]);
        assert s == [s[0]] + s[1..];
      }
    }
  }

  /** Text free of the separator stays glued to the first piece of what follows it. */
  lemma {:induction false} SplitAfterPlainText(x: string, t: string, sep: char)
    requires sep !in x
    ensures Split(x + t, sep) == [x + Split(t, sep)[0]] + Split(t, sep)[1..]
  {
    if x != [] {
      assert x[0] != sep;
      assert (x + t)[0] == x[0];
      assert (x + t)[1..] == x[1..] + t;
      assert sep !in x[1..] by {
        forall k | 0 <= k < |x[1..]| ensures x[1..][k] != sep {
          assert x[1..][k] == x[k + 1];
        }
      }
      SplitAfterPlainText(x[1..], t, sep);
      var rest := Split(x[1..] + t, sep);
      assert rest[0] == x[1..] + Split(t, sep)[0];
      assert rest[1..] == Split(t, sep)[1..];
      assert Split(x + t, sep) == [[x[0]] + rest[0]] + rest[1..];
      assert [x[0]] + (x[1..] + Split(t, sep)[0]) == x + Split(t, sep)[0];
    } else {
      assert x + t == t;
      assert x + Split(t, sep)[0] == Split(t, sep)[0];
      assert [x + Split(t, sep)[0]] + Split(t, sep)[1..] == Split(t, sep);
    }
  }

  /** Splitting a join of separator-free pieces gives back exactly those pieces. */
  lemma {:induction false} SplitJoin(xs: seq<string>, sep: char)
    requires |xs| >= 1
    requires forall k :: 0 <= k < |xs| ==> sep !in xs[k]
    ensures Split(Join(xs, [sep]), sep) == xs
  {
    if |xs| == 1 {
      SplitAfterPlainText(xs[0], "", sep);
      assert xs[0] + "" == xs[0];
    } else {
      var j := Join(xs[1..], [sep]);
      SplitJoin(xs[1..], sep);
      assert Join(xs, [sep]) == xs[0] + ([sep] + j);
      SplitAfterPlainText(xs[0], [sep] + j, sep);
      assert ([sep] + j)[1..] == j;
      assert Split([sep] + j, sep) == [""] + xs[1..];
      assert xs[0] + "" == xs[0];
      assert xs == [xs[0]] + xs[1..];
    }
  }

  /** Every piece of `xs` with `p` glued in front. */
  function PrefixEach(p: string, xs: seq<string>): seq<string> {
    seq(|xs|, k requires 0 <= k < |xs| => p + xs[k])
  }

  /** A padded separator is the bare separator with the padding moved onto the later pieces. */
  lemma {:induction false} JoinPaddedSeparator(xs: seq<string>, sep: char, pad: string)
    requires |xs| >= 1
    ensures Join(xs, [sep] + pad) == Join([xs[0]] + PrefixEach(pad, xs[1..]), [sep])
  {
    if |xs| > 1 {
      PadBeforeJoin(xs[1..], sep, pad);
      var ys := [xs[0]] + PrefixEach(pad, xs[1..]);
      assert ys[1..] == PrefixEach(pad, xs[1..]);
      assert Join(xs, [sep] + pad) == xs[0] + [sep] + (pad + Join(xs[1..], [sep] + pad));
    } else {
      assert [xs[0]] + PrefixEach(pad, xs[1..]) == [xs[0]];
    }
  }

  lemma {:induction false} PadBeforeJoin(ys: seq<string>, sep: char, pad: string)
    requires |ys| >= 1
    ensures pad + Join(ys, [sep] + pad) == Join(PrefixEach(pad, ys), [sep])
  {
    if |ys| > 1 {
      PadBeforeJoin(ys[1..], sep, pad);
      assert PrefixEach(pad, ys)[1..] == PrefixEach(pad, ys[1..]);
      assert pad + Join(ys, [sep] + pad) == (pad + ys[0]) + [sep] + (pad + Join(ys[1..], [sep] + pad));
    }
  }

  /** The characters Python's `str.isspace` accepts (and so `str.strip()` removes). */
  predicate IsSpace(c: char) {
    var n := c as int;
    (0x09 <= n <= 0x0D) || (0x1C <= n <= 0x20) || n == 0x85 || n == 0xA0 || n == 0x1680
    || (0x2000 <= n <= 0x200A) || n == 0x2028 || n == 0x2029 || n == 0x202F || n == 0x205F
    || n == 0x3000
  }

  /** `s.lstrip()`: the longest whitespace prefix is dropped. */
  function TrimStart(s: string): (r: string)
    ensures |r| <= |s| && r == s[|s| - |r|..]
    ensures forall k :: 0 <= k < |s| - |r| ==> IsSpace(s[k])
    ensures r != [] ==> !IsSpace(r[0])
  {
    if s != [] && IsSpace(s[0]) then TrimStart(s[1..]) else s
  }

  /** `s.rstrip()`: the longest whitespace suffix is dropped. */
  function TrimEnd(s: string): (r: string)
    ensures |r| <= |s| && r == s[..|r|]
    ensures forall k :: |r| <= k < |s| ==> IsSpace(s[k])
    ensures r != [] ==> !IsSpace(r[|r| - 1])
  {
    if s != [] && IsSpace(s[|s| - 1]) then TrimEnd(s[..|s| - 1]) else s
  }

  /** `s.strip()` */
  function Strip(s: string): string {
    TrimEnd(TrimStart(s))
  }

  predicate AllSpace(s: string) {
    forall k :: 0 <= k < |s| ==> IsSpace(s[k])
  }

  /** `r` is a slice of `s` with nothing but whitespace on either side of it. */
  predicate SpaceFramed(s: string, r: string) {
    exists i | 0 <= i <= |s| - |r| :: OccursAt(s, r, i) && AllSpace(s[..i]) && AllSpace(s[i + |r|..])
  }

  /**
   * What `strip()` keeps: a slice of `s` with only whitespace cut off either side, that neither
   * starts nor ends with whitespace; it is empty exactly when `s` is all whitespace.
   */
  lemma StripSlice(s: string)
    ensures SpaceFramed(s, Strip(s))
    ensures Strip(s) != [] ==> !IsSpace(Strip(s)[0]) && !IsSpace(Strip(s)[|Strip(s)| - 1])
    ensures Strip(s) == [] <==> AllSpace(s)
  {
    StripFramed(s);
    StripEnds(s);
    StripEmpty(s);
  }

  lemma StripFramed(s: string)
    ensures SpaceFramed(s, Strip(s))
  {
    var l := TrimStart(s);
    var r := TrimEnd(l);
    var i := |s| - |l|;
    assert OccursAt(s, r, i) by {
      assert r == s[i..i + |r|];
    }
    assert AllSpace(s[..i]) by {
      forall k | 0 <= k < i ensures IsSpace(s[..i][k]) { }
    }
    assert AllSpace(s[i + |r|..]) by {
      var tail := s[i + |r|..];
      forall k | 0 <= k < |tail| ensures IsSpace(tail[k]) {
        assert tail[k] == l[|r| + k];
      }
    }
    FramedAt(s, r, i);
  }

  lemma StripEnds(s: string)
    ensures Strip(s) != [] ==> !IsSpace(Strip(s)[0]) && !IsSpace(Strip(s)[|Strip(s)| - 1])
  {
    var l := TrimStart(s);
    var r := TrimEnd(l);
    if r != [] {
      assert r[0] == l[0];
    }
  }

  lemma StripEmpty(s: string)
    ensures Strip(s) == [] <==> AllSpace(s)
  {
    var l := TrimStart(s);
    var r := TrimEnd(l);
    if l == [] {
      assert AllSpace(s) by {
        forall k | 0 <= k < |s| ensures IsSpace(s[k]) { }
      }
    } else {
      assert l[0] == s[|s| - |l|];
    }
  }

  lemma FramedAt(s: string, r: string, i: int)
    requires OccursAt(s, r, i) && AllSpace(s[..i]) && AllSpace(s[i + |r|..])
    ensures SpaceFramed(s, r)
  {
  }

  /**
   * A whitespace-framed slice that neither starts nor ends with whitespace is exactly what
   * `strip()` returns.
   */
  lemma StripUnique(s: string, t: string)
    requires SpaceFramed(s, t) && t != [] && !IsSpace(t[0]) && !IsSpace(t[|t| - 1])
    ensures t == Strip(s)
  {
    var u := Strip(s);
    assert u != [] by {
      FramedNotAllSpace(s, t);
      StripEmpty(s);
    }
    assert !IsSpace(u[0]) && !IsSpace(u[|u| - 1]) by {
      StripEnds(s);
    }
    assert SpaceFramed(s, u) by {
      StripFramed(s);
    }
    FramedUnique(s, t, u);
  }

  lemma FramedNotAllSpace(s: string, t: string)
    requires SpaceFramed(s, t) && t != [] && !IsSpace(t[0])
    ensures !AllSpace(s)
  {
    var i :| 0 <= i <= |s| - |t| && OccursAt(s, t, i) && AllSpace(s[..i]) && AllSpace(s[i + |t|..]);
    FramedEdges(s, t, i);
    assert !IsSpace(s[i]);
  }

  /** Two whitespace-framed slices of `s` with non-space ends are the same slice. */
  lemma FramedUnique(s: string, t: string, u: string)
    requires SpaceFramed(s, t) && t != [] && !IsSpace(t[0]) && !IsSpace(t[|t| - 1])
    requires SpaceFramed(s, u) && u != [] && !IsSpace(u[0]) && !IsSpace(u[|u| - 1])
    ensures t == u
  {
    var i :| 0 <= i <= |s| - |t| && OccursAt(s, t, i) && AllSpace(s[..i]) && AllSpace(s[i + |t|..]);
    var j :| 0 <= j <= |s| - |u| && OccursAt(s, u, j) && AllSpace(s[..j]) && AllSpace(s[j + |u|..]);
    FramedUniqueAt(s, t, i, u, j);
  }

  lemma FramedUniqueAt(s: string, t: string, i: int, u: string, j: int)
    requires OccursAt(s, t, i) && AllSpace(s[..i]) && AllSpace(s[i + |t|..])
    requires OccursAt(s, u, j) && AllSpace(s[..j]) && AllSpace(s[j + |u|..])
    requires t != [] && !IsSpace(t[0]) && !IsSpace(t[|t| - 1])
    requires u != [] && !IsSpace(u[0]) && !IsSpace(u[|u| - 1])
    ensures t == u
  {
    FramedEdges(s, t, i);
    FramedEdges(s, u, j);
    SameFrame(s, i, |t|, j, |u|);
  }

  /** The first and last characters of a framed slice sit at its offset in `s`. */
  lemma FramedEdges(s: string, t: string, i: int)
    requires OccursAt(s, t, i) && t != []
    ensures s[i] == t[0] && s[i + |t| - 1] == t[|t| - 1]
  {
    assert s[i..i + |t|][0] == s[i];
    assert s[i..i + |t|][|t| - 1] == s[i + |t| - 1];
  }

  /** Two non-empty slices framed by whitespace and with non-space ends coincide. */
  lemma SameFrame(s: string, i: nat, m: nat, j: nat, n: nat)
    requires 0 < m && i + m <= |s| && 0 < n && j + n <= |s|
    requires !IsSpace(s[i]) && !IsSpace(s[i + m - 1]) && !IsSpace(s[j]) && !IsSpace(s[j + n - 1])
    requires AllSpace(s[..i]) && AllSpace(s[i + m..]) && AllSpace(s[..j]) && AllSpace(s[j + n..])
    ensures i == j && m == n
  {
  }

  /**
   * `os.path.basename(path)` on POSIX: everything after the last '/', or all of `path` when it
   * has none.
   */
  function Basename(path: string): (r: string)
    ensures '/' !in r
    ensures |r| <= |path| && r == path[|path| - |r|..]
    ensures |r| < |path| ==> path[|path| - |r| - 1] == '/'
  {
    if path == [] || path[|path| - 1] == '/' then ""
    else Basename(path[..|path| - 1]) + [path[|path| - 1]]
  }

  /** `part` occurs in `text` starting at index `i`. */
  predicate OccursAt(text: string, part: string, i: int) {
    0 <= i <= |text| - |part| && text[i..i + |part|] == part
  }

  /** Python's `part in text` for two strings. */
  predicate Contains(text: string, part: string) {
    exists i | 0 <= i <= |text| - |part| :: OccursAt(text, part, i)
  }

  /** `''.join(parts)` */
  function Concat(parts: seq<string>): string {
    if parts == [] then "" else parts[0] + Concat(parts[1..])
  }

  lemma ContainsAround(a: string, p: string, b: string, q: string)
    requires Contains(p, q)
    ensures Contains(a + p + b, q)
  {
    var i :| 0 <= i <= |p| - |q| && OccursAt(p, q, i);
    assert p[i..i + |q|] == q;
    assert (a + p + b)[|a| + i..|a| + i + |q|] == q;
    assert OccursAt(a + p + b, q, |a| + i);
  }

  /** Each of the concatenated parts occurs in the concatenation. */
  lemma {:induction false} ConcatContains(parts: seq<string>, k: nat)
    requires k < |parts|
    ensures Contains(Concat(parts), parts[k])
  {
    if k == 0 {
      assert OccursAt(parts[0], parts[0], 0) by {
        assert parts[0][0..|parts[0]|] == parts[0];
      }
      ContainsAround("", parts[0], Concat(parts[1..]), parts[0]);
      assert "" + parts[0] + Concat(parts[1..]) == Concat(parts);
    } else {
      ConcatContains(parts[1..], k - 1);
      ContainsAround(parts[0], Concat(parts[1..]), "", parts[k]);
      assert parts[0] + Concat(parts[1..]) + "" == Concat(parts);
    }
  }
}
