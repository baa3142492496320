/**
 * The ledger contract's fixed interface, as the client sees it, and
 * `normalizeIdea`: trim the text, then replace every run of whitespace
 * with one space.
 */
module Blockchain {
  import opened Common

  /** The all-zero address, which the contract returns as the submitter of an unknown digest. */
  const ZeroAddress := "0x0000000000000000000000000000000000000000"

  /**
   * What `getIdeaByHash` returns: the submitter address, as ethers renders
   * it, and the submission time in seconds since the epoch (a uint256).
   */
  datatype Record = Record(submitter: string, timestamp: nat)

  /**
   * The ledger as the read path sees it: the digests recorded so far; or a
   * `getIdeaByHash` call that throws (a network failure, a malformed
   * reply); or no wallet object, so that building the provider throws
   * before any call is made.
   */
  datatype Chain = Reachable(records: map<Digest, Record>) | CallFails | NoProvider

  /** `getIdeaByHash(d)` on a reachable ledger: an unknown digest reads as (zero address, 0). */
  function GetIdeaByHash(records: map<Digest, Record>, d: Digest): Record
  {
    if d in records then records[d] else Record(ZeroAddress, 0)
  }

  // ---------------------------------------------------------------------
  // normalizeIdea
  // ---------------------------------------------------------------------

  /**
   * ECMAScript whitespace: the WhiteSpace and LineTerminator characters.
   * `String.prototype.trim` and the regular-expression class `\s` use
   * this same set.
   */
  predicate IsSpace(c: char)
  {
    c == '\t' || c == '\n' || c == '\U{B}' || c == '\U{C}' || c == '\r' || c == ' ' ||
    c == '\U{A0}' || c == '\U{1680}' || ('\U{2000}' <= c <= '\U{200A}') ||
    c == '\U{2028}' || c == '\U{2029}' || c == '\U{202F}' || c == '\U{205F}' ||
    c == '\U{3000}' || c == '\U{FEFF}'
  }

  /** True when every character of `s` is whitespace (also for the empty string). */
  ghost predicate AllSpace(s: string)
  {
    forall i :: 0 <= i < |s| ==> IsSpace(s[i])
  }

  /** Drops the leading whitespace run: the result is the longest suffix that does not start with whitespace. */
  function TrimStart(s: string): (r: string)
    ensures |r| <= |s| && r == s[|s| - |r|..]
    ensures r == [] || !IsSpace(r[0])
    ensures AllSpace(s[..|s| - |r|])
  {
    if s != [] && IsSpace(s[0]) then
      var r := TrimStart(s[1..]);
      assert s[1..][|s| - 1 - |r|..] == s[|s| - |r|..];
      assert forall i :: 0 <= i < |s| - |r| ==> IsSpace(s[i]) by {
        forall i | 0 <= i < |s| - |r| ensures IsSpace(s[i]) {
          if i > 0 { assert s[1..][..|s| - 1 - |r|][i - 1] == s[i]; }
        }
      }
      r
    else s
  }

  /** Drops the trailing whitespace run: the result is the longest prefix that does not end with whitespace. */
  function TrimEnd(s: string): (r: string)
    ensures |r| <= |s| && r == s[..|r|]
    ensures r == [] || !IsSpace(r[|r| - 1])
    ensures AllSpace(s[|r|..])
  {
    if s != [] && IsSpace(s[|s| - 1]) then
      var init := s[..|s| - 1];
      var r := TrimEnd(init);
      assert init[..|r|] == s[..|r|];
      assert forall i :: |r| <= i < |s| ==> IsSpace(s[i]) by {
        forall i | |r| <= i < |s| ensures IsSpace(s[i]) {
          if i < |s| - 1 { assert init[|r|..][i - |r|] == s[i]; }
        }
      }
      r
    else s
  }

  /** `text.trim()`. */
  function Trim(s: string): string
  {
    TrimEnd(TrimStart(s))
  }

  /** `replace(/\s+/g, ' ')`: each maximal run of whitespace becomes one space. */
  function Collapse(s: string): string
    decreases |s|
  {
    if s == [] then []
    else if IsSpace(s[0]) then [' '] + Collapse(TrimStart(s))
    else [s[0]] + Collapse(s[1..])
  }

  /** `normalizeIdea(text)`. */
  function NormalizeIdea(text: string): string
  {
    Collapse(Trim(text))
  }

  /** The characters of `s` that are not whitespace, in order. */
  function Visible(s: string): string
  {
    if s == [] then [] else (if IsSpace(s[0]) then [] else [s[0]]) + Visible(s[1..])
  }

  /** Every whitespace character is a plain space and no two whitespace characters are adjacent. */
  ghost predicate SingleSpaced(s: string)
  {
    (forall i :: 0 <= i < |s| && IsSpace(s[i]) ==> s[i] == ' ') &&
    (forall i :: 0 <= i < |s| - 1 && IsSpace(s[i]) ==> !IsSpace(s[i + 1]))
  }

  /** Neither the first nor the last character is whitespace. */
  ghost predicate Trimmed(s: string)
  {
    s == [] || (!IsSpace(s[0]) && !IsSpace(s[|s| - 1]))
  }

  // --- facts about the pieces ---

  lemma {:induction false} VisibleAppend(a: string, b: string)
    ensures Visible(a + b) == Visible(a) + Visible(b)
  {
    if a != [] {
      assert (a + b)[0] == a[0] && (a + b)[1..] == a[1..] + b;
      VisibleAppend(a[1..], b);
    } else {
      assert a + b == b;
    }
  }

  lemma {:induction false} VisibleOfSpaces(s: string)
    requires AllSpace(s)
    ensures Visible(s) == []
  {
    if s != [] {
      VisibleOfSpaces(s[1..]);
    }
  }

  lemma TrimStartKeepsVisible(s: string)
    ensures Visible(TrimStart(s)) == Visible(s)
  {
    var t := TrimStart(s);
    var k := |s| - |t|;
    assert s == s[..k] + t;
    VisibleOfSpaces(s[..k]);
    VisibleAppend(s[..k], t);
  }

  lemma TrimEndKeepsVisible(s: string)
    ensures Visible(TrimEnd(s)) == Visible(s)
  {
    var u := TrimEnd(s);
    assert s == u + s[|u|..];
    VisibleOfSpaces(s[|u|..]);
    VisibleAppend(u, s[|u|..]);
  }

  /** Trimming removes only whitespace, so the visible characters stay. */
  lemma TrimKeepsVisible(s: string)
    ensures Visible(Trim(s)) == Visible(s)
  {
    TrimStartKeepsVisible(s);
    TrimEndKeepsVisible(TrimStart(s));
  }

  lemma TrimIsTrimmed(s: string)
    ensures Trimmed(Trim(s))
  {
    var t := TrimStart(s);
    var u := TrimEnd(t);
    if u != [] {
      assert u == t[..|u|];
      assert u[0] == t[0];
    }
  }

  lemma {:induction false} CollapseLength(s: string)
    ensures |Collapse(s)| <= |s|
    decreases |s|
  {
    if s != [] {
      if IsSpace(s[0]) {
        CollapseLength(TrimStart(s));
      } else {
        CollapseLength(s[1..]);
      }
    }
  }

  lemma {:induction false} CollapseEnds(s: string)
    requires s != []
    ensures Collapse(s) != []
    ensures IsSpace(Collapse(s)[0]) <==> IsSpace(s[0])
    ensures IsSpace(Collapse(s)[|Collapse(s)| - 1]) <==> IsSpace(s[|s| - 1])
    decreases |s|
  {
    var r := Collapse(s);
    if IsSpace(s[0]) {
      var t := TrimStart(s);
      if t != [] {
        CollapseEnds(t);
        assert t[|t| - 1] == s[|s| - 1];
        assert r[|r| - 1] == Collapse(t)[|Collapse(t)| - 1];
      } else {
        assert AllSpace(s[..|s|]);
        assert IsSpace(s[|s| - 1]);
      }
    } else if |s| > 1 {
      CollapseEnds(s[1..]);
      assert r[|r| - 1] == Collapse(s[1..])[|Collapse(s[1..])| - 1];
    }
  }

  lemma {:induction false} CollapseSingleSpaced(s: string)
    ensures SingleSpaced(Collapse(s))
    decreases |s|
  {
    if s != [] {
      var r := Collapse(s);
      if IsSpace(s[0]) {
        var t := TrimStart(s);
        CollapseSingleSpaced(t);
        if t != [] {
          CollapseEnds(t);
        }
        assert r == [' '] + Collapse(t);
        forall i | 0 <= i < |r| && IsSpace(r[i]) ensures r[i] == ' ' {
          if i > 0 { assert r[i] == Collapse(t)[i - 1]; }
        }
        forall i | 0 <= i < |r| - 1 && IsSpace(r[i]) ensures !IsSpace(r[i + 1]) {
          if i > 0 { assert r[i] == Collapse(t)[i - 1] && r[i + 1] == Collapse(t)[i]; }
        }
      } else {
        var t := s[1..];
        CollapseSingleSpaced(t);
        assert r == [s[0]] + Collapse(t);
        forall i | 0 <= i < |r| && IsSpace(r[i]) ensures r[i] == ' ' {
          assert r[i] == Collapse(t)[i - 1];
        }
        forall i | 0 <= i < |r| - 1 && IsSpace(r[i]) ensures !IsSpace(r[i + 1]) {
          assert r[i] == Collapse(t)[i - 1] && r[i + 1] == Collapse(t)[i];
        }
      }
    }
  }

  lemma {:induction false} CollapseKeepsVisible(s: string)
    ensures Visible(Collapse(s)) == Visible(s)
    decreases |s|
  {
    if s != [] {
      if IsSpace(s[0]) {
        var t := TrimStart(s);
        CollapseKeepsVisible(t);
        VisibleAppend([' '], Collapse(t));
        assert s == s[..|s| - |t|] + t;
        VisibleOfSpaces(s[..|s| - |t|]);
        VisibleAppend(s[..|s| - |t|], t);
      } else {
        CollapseKeepsVisible(s[1..]);
        VisibleAppend([s[0]], Collapse(s[1..]));
        assert s == [s[0]] + s[1..];
        VisibleAppend([s[0]], s[1..]);
      }
    }
  }

  /** A single-spaced string has nothing to collapse. */
  lemma {:induction false} CollapseFixesSingleSpaced(s: string)
    requires SingleSpaced(s)
    ensures Collapse(s) == s
    decreases |s|
  {
    if s != [] {
      var t := s[1..];
      assert SingleSpaced(t) by {
        forall i | 0 <= i < |t| - 1 && IsSpace(t[i]) ensures !IsSpace(t[i + 1]) {
          assert t[i] == s[i + 1] && t[i + 1] == s[i + 2];
        }
      }
      CollapseFixesSingleSpaced(t);
      if IsSpace(s[0]) {
        assert TrimStart(s) == t by { assert |s| > 1 ==> !IsSpace(s[1]); }
      }
      assert Collapse(s) == [s[0]] + t;
      assert s == [s[0]] + t;
    }
  }

  lemma TrimFixesTrimmed(s: string)
    requires Trimmed(s)
    ensures Trim(s) == s
  {
  }

  /** Leading whitespace before `y` is skipped entirely. */
  lemma {:induction false} TrimStartSkipsSpaces(w: string, y: string)
    requires AllSpace(w)
    ensures TrimStart(w + y) == TrimStart(y)
  {
    if w != [] {
      assert (w + y)[0] == w[0] && (w + y)[1..] == w[1..] + y;
      TrimStartSkipsSpaces(w[1..], y);
    } else {
      assert w + y == y;
    }
  }

  /** Trailing whitespace after `y` is dropped entirely. */
  lemma {:induction false} TrimEndSkipsSpaces(y: string, w: string)
    requires AllSpace(w)
    ensures TrimEnd(y + w) == TrimEnd(y)
    decreases |w|
  {
    if w != [] {
      var s := y + w;
      var w' := w[..|w| - 1];
      assert s[|s| - 1] == w[|w| - 1];
      assert s[..|s| - 1] == y + w';
      assert AllSpace(w') by {
        forall i | 0 <= i < |w'| ensures IsSpace(w'[i]) { assert w'[i] == w[i]; }
      }
      TrimEndSkipsSpaces(y, w');
    } else {
      assert y + w == y;
    }
  }

  /** An all-whitespace string trims to nothing from the front. */
  lemma {:induction false} TrimStartAllSpace(s: string)
    requires AllSpace(s)
    ensures TrimStart(s) == []
  {
    TrimStartSkipsSpaces(s, []);
    assert s + [] == s;
  }

  /** Once `x` holds a non-whitespace character, whatever follows it is kept. */
  lemma {:induction false} TrimStartAppend(x: string, z: string)
    requires !AllSpace(x)
    ensures TrimStart(x + z) == TrimStart(x) + z
  {
    assert (x + z)[0] == x[0];
    if IsSpace(x[0]) {
      assert (x + z)[1..] == x[1..] + z;
      TrimStartAppend(x[1..], z);
    }
  }

  /** Once `b` starts with a non-whitespace character, whatever precedes it is kept. */
  lemma {:induction false} TrimEndPrepend(y: string, b: string)
    requires b != [] && !IsSpace(b[0])
    ensures TrimEnd(y + b) == y + TrimEnd(b)
    decreases |b|
  {
    var s := y + b;
    assert s[|s| - 1] == b[|b| - 1];
    if IsSpace(b[|b| - 1]) {
      assert |b| > 1;
      var b' := b[..|b| - 1];
      assert s[..|s| - 1] == y + b';
      assert b'[0] == b[0];
      TrimEndPrepend(y, b');
    }
  }

  /** Concatenation is associative; stated once so proofs about function results need no extensionality. */
  lemma ConcatAssoc(p: string, q: string, r: string)
    ensures p + (q + r) == (p + q) + r
  {
  }

  /** Dropping a leading whitespace run shortens the string. */
  lemma {:induction false} TrimStartShortens(x: string)
    requires x != [] && IsSpace(x[0])
    ensures |TrimStart(x)| < |x|
  {
  }

  /** A string ending in a non-whitespace character keeps that last character through the leading trim. */
  lemma {:induction false} TrimStartKeepsLast(x: string)
    requires x != [] && !IsSpace(x[|x| - 1])
    ensures var t := TrimStart(x); t != [] && t[|t| - 1] == x[|x| - 1]
  {
    var t := TrimStart(x);
    var k := |x| - |t|;
    assert x[..|x|] == x;
    assert t != [] ==> t[|t| - 1] == x[k..][|t| - 1];
  }

  /** A string starting with a non-whitespace character keeps that first character through the trailing trim. */
  lemma {:induction false} TrimEndKeepsFirst(y: string)
    requires y != [] && !IsSpace(y[0])
    ensures var r := TrimEnd(y); r != [] && r[0] == y[0]
  {
    assert y[0..] == y;
  }

  /** A whitespace-led string collapses to one space before the collapse of the rest once its run is dropped, whatever follows it. */
  lemma {:induction false} CollapseSpaceLed(x: string, z: string)
    requires x != [] && IsSpace(x[0])
    ensures Collapse(x) == [' '] + Collapse(TrimStart(x))
    ensures Collapse(x + z) == [' '] + Collapse(TrimStart(x + z))
  {
    assert (x + z)[0] == x[0];
  }

  /** TrimStartAppend for a string that ends in a non-whitespace character. */
  lemma {:induction false} TrimStartAppendVisible(x: string, z: string)
    requires x != [] && !IsSpace(x[|x| - 1])
    ensures TrimStart(x + z) == TrimStart(x) + z
  {
    assert !AllSpace(x);
    TrimStartAppend(x, z);
  }

  /** The whitespace-led step of CollapseAppend, given the claim for the string with its leading run dropped. */
  lemma {:induction false} CollapseAppendSpaceStep(x: string, z: string, t: string)
    requires x != [] && IsSpace(x[0]) && !IsSpace(x[|x| - 1])
    requires t == TrimStart(x)
    requires Collapse(t + z) == Collapse(t) + Collapse(z)
    ensures Collapse(x + z) == Collapse(x) + Collapse(z)
  {
    TrimStartAppendVisible(x, z);
    CollapseSpaceLed(x, z);
    ConcatAssoc([' '], Collapse(t), Collapse(z));
  }

  /** The step of CollapseAppend for a string led by a non-whitespace character, given the claim for its tail. */
  lemma {:induction false} CollapseAppendCharStep(x: string, z: string)
    requires x != [] && !IsSpace(x[0])
    requires Collapse(x[1..] + z) == Collapse(x[1..]) + Collapse(z)
    ensures Collapse(x + z) == Collapse(x) + Collapse(z)
  {
    assert (x + z)[0] == x[0] && (x + z)[1..] == x[1..] + z;
    ConcatAssoc([x[0]], Collapse(x[1..]), Collapse(z));
  }

  /** A string that ends in a non-whitespace character collapses independently of what follows. */
  lemma {:induction false} CollapseAppend(x: string, z: string)
    requires x == [] || !IsSpace(x[|x| - 1])
    ensures Collapse(x + z) == Collapse(x) + Collapse(z)
    decreases |x|
  {
    if x == [] {
      assert x + z == z;
    } else if IsSpace(x[0]) {
      TrimStartShortens(x);
      TrimStartKeepsLast(x);
      CollapseAppend(TrimStart(x), z);
      CollapseAppendSpaceStep(x, z, TrimStart(x));
    } else {
      assert x[1..] == [] || x[1..][|x[1..]| - 1] == x[|x| - 1];
      CollapseAppend(x[1..], z);
      CollapseAppendCharStep(x, z);
    }
  }

  /** A whitespace run before a non-whitespace character becomes exactly one space. */
  lemma {:induction false} CollapseSpaceRun(w: string, y: string)
    requires w != [] && AllSpace(w)
    requires y != [] && !IsSpace(y[0])
    ensures Collapse(w + y) == [' '] + Collapse(y)
  {
    assert (w + y)[0] == w[0];
    TrimStartSkipsSpaces(w, y);
  }

  // --- the properties of normalizeIdea ---

  /** The result neither starts nor ends with whitespace. */
  lemma NormalizeIsTrimmed(text: string)
    ensures Trimmed(NormalizeIdea(text))
  {
    var t := Trim(text);
    TrimIsTrimmed(text);
    if t != [] {
      CollapseEnds(t);
    }
  }

  /** Every whitespace character left is one plain space between two non-whitespace characters. */
  lemma NormalizeIsSingleSpaced(text: string)
    ensures SingleSpaced(NormalizeIdea(text))
  {
    CollapseSingleSpaced(Trim(text));
  }

  /** The non-whitespace characters are the input's, same characters in the same order. */
  lemma NormalizeKeepsVisible(text: string)
    ensures Visible(NormalizeIdea(text)) == Visible(text)
  {
    CollapseKeepsVisible(Trim(text));
    TrimKeepsVisible(text);
  }

  /** Normalizing twice is normalizing once. */
  lemma NormalizeIdempotent(text: string)
    ensures NormalizeIdea(NormalizeIdea(text)) == NormalizeIdea(text)
  {
    var r := NormalizeIdea(text);
    NormalizeIsTrimmed(text);
    NormalizeIsSingleSpaced(text);
    TrimFixesTrimmed(r);
    CollapseFixesSingleSpaced(r);
  }

  /** The result is empty exactly when the input is empty or all whitespace. */
  lemma NormalizeBlank(text: string)
    ensures NormalizeIdea(text) == [] <==> AllSpace(text)
  {
    var t := TrimStart(text);
    if AllSpace(text) {
      assert t == [];
    } else {
      var i :| 0 <= i < |text| && !IsSpace(text[i]);
      assert t != [];
      assert Trim(text) != [];
    }
  }

  /** Normalizing never lengthens the text. */
  lemma NormalizeShorter(text: string)
    ensures |NormalizeIdea(text)| <= |text|
  {
    CollapseLength(Trim(text));
  }

  /** Text without whitespace is left as it is. */
  lemma {:induction false} NormalizeKeepsWord(text: string)
    requires forall i :: 0 <= i < |text| ==> !IsSpace(text[i])
    ensures NormalizeIdea(text) == text
  {
    TrimFixesTrimmed(text);
    CollapseFixesSingleSpaced(text);
  }

  /** A string ending in a non-whitespace character loses only its leading run to `trim`. */
  lemma {:induction false} TrimVisibleEnd(a: string)
    requires a != [] && !IsSpace(a[|a| - 1])
    ensures Trim(a) == TrimStart(a)
    ensures Trim(a) != [] && !IsSpace(Trim(a)[|Trim(a)| - 1])
  {
    TrimStartKeepsLast(a);
  }

  /** A string starting with a non-whitespace character loses only its trailing run to `trim`. */
  lemma {:induction false} TrimVisibleStart(b: string)
    requires b != [] && !IsSpace(b[0])
    ensures Trim(b) == TrimEnd(b)
    ensures Trim(b) != [] && !IsSpace(Trim(b)[0])
  {
    TrimEndKeepsFirst(b);
  }

  /** TrimEndPrepend with the kept prefix in two parts. */
  lemma {:induction false} TrimEndPrependPair(A: string, w: string, b: string)
    requires b != [] && !IsSpace(b[0])
    ensures TrimEnd(A + (w + b)) == A + (w + TrimEnd(b))
  {
    assert A + (w + b) == (A + w) + b;
    TrimEndPrepend(A + w, b);
    assert (A + w) + TrimEnd(b) == A + (w + TrimEnd(b));
  }

  /** The trim of `a + w + b` drops only what the trims of `a` and `b` drop at the outer ends. */
  lemma {:induction false} TrimJoin(a: string, w: string, b: string)
    requires a != [] && !IsSpace(a[|a| - 1])
    requires b != [] && !IsSpace(b[0])
    ensures Trim(a + (w + b)) == TrimStart(a) + (w + TrimEnd(b))
  {
    TrimStartAppendVisible(a, w + b);
    TrimEndPrependPair(TrimStart(a), w, b);
  }

  /** Trimming around an inner whitespace run keeps the run and trims each side on its own. */
  lemma {:induction false} TrimAroundGap(a: string, w: string, b: string)
    requires a != [] && !IsSpace(a[|a| - 1])
    requires b != [] && !IsSpace(b[0])
    ensures Trim(a + (w + b)) == Trim(a) + (w + Trim(b))
    ensures Trim(a) != [] && !IsSpace(Trim(a)[|Trim(a)| - 1])
    ensures Trim(b) != [] && !IsSpace(Trim(b)[0])
  {
    TrimVisibleEnd(a);
    TrimVisibleStart(b);
    TrimJoin(a, w, b);
  }

  /** Collapsing around an inner whitespace run turns the run into one space and collapses each side on its own. */
  lemma {:induction false} CollapseAroundGap(A: string, w: string, B: string)
    requires A != [] && !IsSpace(A[|A| - 1])
    requires w != [] && AllSpace(w)
    requires B != [] && !IsSpace(B[0])
    ensures Collapse(A + (w + B)) == Collapse(A) + " " + Collapse(B)
  {
    CollapseAppend(A, w + B);
    CollapseSpaceRun(w, B);
  }

  /**
   * A whitespace run between two non-whitespace characters becomes exactly
   * one space, and each side normalises on its own.
   */
  lemma {:induction false} NormalizeSeparates(a: string, w: string, b: string)
    requires a != [] && !IsSpace(a[|a| - 1])
    requires w != [] && AllSpace(w)
    requires b != [] && !IsSpace(b[0])
    ensures NormalizeIdea(a + (w + b)) == NormalizeIdea(a) + " " + NormalizeIdea(b)
  {
    var A, B := Trim(a), Trim(b);
    assert Trim(a + (w + b)) == A + (w + B) && A != [] && !IsSpace(A[|A| - 1]) && B != [] && !IsSpace(B[0]) by {
      TrimAroundGap(a, w, b);
    }
    assert Collapse(A + (w + B)) == Collapse(A) + " " + Collapse(B) by {
      CollapseAroundGap(A, w, B);
    }
  }

  /** Two whitespace runs side by side form one. */
  lemma {:induction false} AllSpaceAppend(u: string, v: string)
    requires AllSpace(u) && AllSpace(v)
    ensures AllSpace(u + v)
  {
    forall i | 0 <= i < |u + v| ensures IsSpace((u + v)[i]) {
      if i < |u| { assert (u + v)[i] == u[i]; } else { assert (u + v)[i] == v[i - |u|]; }
    }
  }

  /** `trim` ignores whitespace added at the end. */
  lemma {:induction false} TrimIgnoresTrailingSpace(t: string, w: string)
    requires AllSpace(w)
    ensures Trim(t + w) == Trim(t)
  {
    if AllSpace(t) {
      assert TrimStart(t + w) == [] by {
        AllSpaceAppend(t, w);
        TrimStartAllSpace(t + w);
      }
      assert TrimStart(t) == [] by { TrimStartAllSpace(t); }
    } else {
      assert TrimStart(t + w) == TrimStart(t) + w by { TrimStartAppend(t, w); }
      assert TrimEnd(TrimStart(t) + w) == TrimEnd(TrimStart(t)) by { TrimEndSkipsSpaces(TrimStart(t), w); }
    }
  }

  /** `trim` ignores whitespace added at either end. */
  lemma {:induction false} TrimIgnoresOuterSpace(w1: string, t: string, w2: string)
    requires AllSpace(w1) && AllSpace(w2)
    ensures Trim(w1 + t + w2) == Trim(t)
  {
    assert TrimStart(w1 + t + w2) == TrimStart(t + w2) by {
      assert w1 + t + w2 == w1 + (t + w2);
      TrimStartSkipsSpaces(w1, t + w2);
    }
    TrimIgnoresTrailingSpace(t, w2);
  }

  /** Whitespace added at either end of the text changes nothing in its normal form. */
  lemma {:induction false} NormalizeIgnoresOuterSpace(w1: string, t: string, w2: string)
    requires AllSpace(w1) && AllSpace(w2)
    ensures NormalizeIdea(w1 + t + w2) == NormalizeIdea(t)
  {
    TrimIgnoresOuterSpace(w1, t, w2);
  }
}
