/** String helpers with the meaning Python gives them: `sep.join(xs)`,
    `xs[:n]`, `s.split(sep)` and the `in` / `startswith` / `endswith` tests
    used to state what a generated document contains. */
module Text {

  /** `sub` occurs in `s` as a contiguous block (Python's `sub in s`). */
  ghost predicate Contains(s: string, sub: string) {
    exists i :: OccursAt(s, sub, i)
  }

  /** `sub` occurs in `s` starting at position `i`. */
  ghost predicate OccursAt(s: string, sub: string, i: int) {
    0 <= i <= |s| - |sub| && s[i..i + |sub|] == sub
  }

  predicate StartsWith(s: string, prefix: string) {
    |prefix| <= |s| && s[..|prefix|] == prefix
  }

  predicate EndsWith(s: string, suffix: string) {
    |suffix| <= |s| && s[|s| - |suffix|..] == suffix
  }

  /** Python's slice `xs[:n]` for a non-negative `n`. */
  function Take<T>(xs: seq<T>, n: nat): (r: seq<T>)
    ensures |r| == if n <= |xs| then n else |xs|
    ensures forall i :: 0 <= i < |r| ==> r[i] == xs[i]
  {
    if n <= |xs| then xs[..n] else xs
  }

  /** Python's `sep.join(xs)`: nothing for no items, otherwise the text
      opens with the first item and closes with the last. */
  function Join(xs: seq<string>, sep: string): (r: string)
    ensures |xs| == 0 ==> r == ""
    ensures |xs| > 0 ==> StartsWith(r, xs[0]) && EndsWith(r, xs[|xs| - 1])
  {
    if |xs| == 0 then ""
    else if |xs| == 1 then
      StartsWithExtend(xs[0], "");
      EndsWithExtend("", xs[0]);
      assert xs[0] + "" == xs[0] && "" + xs[0] == xs[0];
      xs[0]
    else
      var tail := xs[1..];
      var rest := Join(tail, sep);
      assert tail[|tail| - 1] == xs[|xs| - 1];
      StartsWithExtend(xs[0], sep + rest);
      EndsWithPrepend(xs[0] + sep, rest, xs[|xs| - 1]);
      assert xs[0] + (sep + rest) == xs[0] + sep + rest;
      xs[0] + sep + rest
  }

  /** Python's `s.split(sep)` for a one-character separator: the pieces
      between separators. There is always at least one piece (so `[0]` is
      defined, and `"".split(".") == [""]`), the first piece starts `s`, and
      there is exactly one piece, `s` itself, when `s` has no separator. */
  function Split(s: string, sep: char): (r: seq<string>)
    ensures |r| >= 1
    ensures |r| == 1 <==> sep !in s
    ensures sep !in s ==> r == [s]
    ensures StartsWith(s, r[0])
  {
    if s == [] then [""]
    else
      var rest := Split(s[1..], sep);
      assert s == [s[0]] + s[1..];
      if s[0] == sep then [""] + rest
      else
        assert s[..|rest[0]| + 1] == [s[0]] + s[1..][..|rest[0]|];
        [[s[0]] + rest[0]] + rest[1..]
  }

  /** Everything before the first `sep`, or all of `s` when there is none:
      `s.split(sep)[0]`. */
  function Stem(s: string, sep: char): (st: string)
    ensures StartsWith(s, st)
    ensures sep !in s ==> st == s
  {
    Split(s, sep)[0]
  }

  lemma ContainsMiddle(a: string, m: string, b: string)
    ensures Contains(a + m + b, m)
  {
    var s := a + m + b;
    assert s[|a|..|a| + |m|] == m;
    assert OccursAt(s, m, |a|);
  }

  /** Whatever contains `m` still does with text added on either side. */
  lemma ContainsExtend(a: string, s: string, b: string, m: string)
    requires Contains(s, m)
    ensures Contains(a + s + b, m)
  {
    var i :| OccursAt(s, m, i);
    var t := a + s + b;
    assert t[|a| + i..|a| + i + |m|] == s[i..i + |m|];
    assert OccursAt(t, m, |a| + i);
  }

  lemma StartsWithExtend(p: string, s: string)
    ensures StartsWith(p + s, p)
  {
    assert (p + s)[..|p|] == p;
  }

  /** A text that ends with `x` still does with something put before it. */
  lemma EndsWithPrepend(a: string, t: string, x: string)
    requires EndsWith(t, x)
    ensures EndsWith(a + t, x)
  {
    assert (a + t)[|a + t| - |x|..] == t[|t| - |x|..];
  }

  lemma EndsWithExtend(s: string, p: string)
    ensures EndsWith(s + p, p)
  {
    assert (s + p)[|s + p| - |p|..] == p;
  }

  /** Every joined item appears verbatim in the joined text. */
  lemma {:induction false} JoinContainsEach(xs: seq<string>, sep: string, k: nat)
    requires k < |xs|
    ensures Contains(Join(xs, sep), xs[k])
  {
    if |xs| == 1 {
      ContainsMiddle("", xs[0], "");
      assert "" + xs[0] + "" == xs[0];
    } else if k == 0 {
      ContainsMiddle("", xs[0], sep + Join(xs[1..], sep));
      assert "" + xs[0] + (sep + Join(xs[1..], sep)) == Join(xs, sep);
    } else {
      JoinContainsEach(xs[1..], sep, k - 1);
      ContainsExtend(xs[0] + sep, Join(xs[1..], sep), "", xs[k]);
      assert xs[0] + sep + Join(xs[1..], sep) + "" == Join(xs, sep);
    }
  }

  /** No piece returned by `Split` contains the separator. */
  lemma {:induction false} SplitPiecesLackSep(s: string, sep: char)
    ensures forall k :: 0 <= k < |Split(s, sep)| ==> sep !in Split(s, sep)[k]
  {
    if s != [] {
      SplitPiecesLackSep(s[1..], sep);
    }
  }

  /** Joining the pieces with the separator gives back the original text. */
  lemma {:induction false} JoinSplit(s: string, sep: char)
    ensures Join(Split(s, sep), [sep]) == s
  {
    if s != [] {
      var rest := Split(s[1..], sep);
      JoinSplit(s[1..], sep);
      if s[0] == sep {
        assert Split(s, sep) == [""] + rest;
        assert ([""] + rest)[1..] == rest;
        assert Join(Split(s, sep), [sep]) == "" + [sep] + Join(rest, [sep]);
        assert s == [s[0]] + s[1..];
      } else {
        var r := Split(s, sep);
        assert r == [[s[0]] + rest[0]] + rest[1..];
        if |rest| == 1 {
          assert Join(r, [sep]) == [s[0]] + rest[0];
          assert s == [s[0]] + s[1..];
        } else {
          assert r[1..] == rest[1..];
          assert Join(rest, [sep]) == rest[0] + [sep] + Join(rest[1..], [sep]);
          assert Join(r, [sep]) == [s[0]] + rest[0] + [sep] + Join(rest[1..], [sep]);
          assert s == [s[0]] + s[1..];
        }
      }
    }
  }

  /** The stem is a prefix of `s` holding no separator, and it stops either
      at the end of `s` or right before the first separator. */
  lemma {:induction false} StemIsPrefixBeforeSep(s: string, sep: char)
    ensures StartsWith(s, Stem(s, sep))
    ensures sep !in Stem(s, sep)
    ensures |Stem(s, sep)| == |s| || s[|Stem(s, sep)|] == sep
  {
    if s != [] {
      StemIsPrefixBeforeSep(s[1..], sep);
      if s[0] != sep {
        var t := Stem(s[1..], sep);
        assert Stem(s, sep) == [s[0]] + t;
        assert s[..|t| + 1] == [s[0]] + s[1..][..|t|];
      }
    }
  }

  /** The stem is the whole text exactly when the text has no separator. */
  lemma StemWholeIffNoSep(s: string, sep: char)
    ensures Stem(s, sep) == s <==> sep !in s
  {
    StemIsPrefixBeforeSep(s, sep);
    if sep !in s {
      assert |Stem(s, sep)| == |s|;
      assert s[..|s|] == s;
    }
  }

  /** The pieces of an f-string glued together in order. */
  function Concat(parts: seq<string>): string {
    if parts == [] then "" else parts[0] + Concat(parts[1..])
  }

  lemma {:induction false} ConcatSplit(parts: seq<string>, i: nat)
    requires i <= |parts|
    ensures Concat(parts) == Concat(parts[..i]) + Concat(parts[i..])
  {
    if i > 0 {
      ConcatSplit(parts[1..], i - 1);
      assert parts[1..][..i - 1] == parts[..i][1..];
      assert parts[1..][i - 1..] == parts[i..];
    }
  }

  lemma ConcatOne(a: string)
    ensures Concat([a]) == a
  {
    assert [a][1..] == [];
  }

  lemma ConcatTwo(a: string, b: string)
    ensures Concat([a, b]) == a + b
  {
    assert [a, b][1..] == [b];
    ConcatOne(b);
  }

  lemma ConcatThree(a: string, b: string, c: string)
    ensures Concat([a, b, c]) == a + b + c
  {
    assert [a, b, c][1..] == [b, c];
    ConcatTwo(b, c);
  }

  lemma ConcatFour(a: string, b: string, c: string, d: string)
    ensures Concat([a, b, c, d]) == a + b + c + d
  {
    assert [a, b, c, d][1..] == [b, c, d];
    ConcatThree(b, c, d);
  }

  /** The text built from the first `i` pieces starts the whole text. */
  lemma {:induction false} ConcatStartsWith(parts: seq<string>, i: nat)
    requires i <= |parts|
    ensures StartsWith(Concat(parts), Concat(parts[..i]))
  {
    ConcatSplit(parts, i);
    StartsWithExtend(Concat(parts[..i]), Concat(parts[i..]));
  }

  /** The text built from the pieces from `i` on ends the whole text. */
  lemma {:induction false} ConcatEndsWith(parts: seq<string>, i: nat)
    requires i <= |parts|
    ensures EndsWith(Concat(parts), Concat(parts[i..]))
  {
    ConcatSplit(parts, i);
    EndsWithExtend(Concat(parts[..i]), Concat(parts[i..]));
  }

  /** Any run of consecutive pieces appears in the whole text. */
  lemma {:induction false} ConcatContainsRun(parts: seq<string>, i: nat, j: nat)
    requires i <= j <= |parts|
    ensures Contains(Concat(parts), Concat(parts[i..j]))
  {
    var rest := parts[i..];
    ConcatSplit(parts, i);
    ConcatSplit(rest, j - i);
    assert rest[..j - i] == parts[i..j];
    ContainsSplit(Concat(parts), Concat(parts[..i]), Concat(parts[i..j]), Concat(rest[j - i..]));
  }

  lemma ContainsSplit(s: string, a: string, b: string, c: string)
    requires s == a + (b + c)
    ensures Contains(s, b)
  {
    ContainsMiddle(a, b, c);
    assert a + b + c == s;
  }

  /** Each single piece appears in the whole text. */
  lemma {:induction false} ConcatContainsPart(parts: seq<string>, k: nat)
    requires k < |parts|
    ensures Contains(Concat(parts), parts[k])
  {
    ConcatContainsRun(parts, k, k + 1);
    assert parts[k..k + 1] == [parts[k]];
    ConcatOne(parts[k]);
  }

  /** Containment is transitive. */
  lemma ContainsTrans(s: string, m: string, x: string)
    requires Contains(s, m) && Contains(m, x)
    ensures Contains(s, x)
  {
    var i :| OccursAt(s, m, i);
    var j :| OccursAt(m, x, j);
    forall t | 0 <= t < |x| ensures s[i + j + t] == x[t] {
      assert s[i..i + |m|][j + t] == m[j + t];
      assert m[j..j + |x|][t] == x[t];
    }
    assert s[i + j..i + j + |x|] == x;
    assert OccursAt(s, x, i + j);
  }
}
