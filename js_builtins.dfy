// The few ECMAScript built-ins the server core leans on, stated on Dafny
// strings: the whitespace class shared by `\s`, String.prototype.trim and
// parseInt, the `/\s+/g` collapse, `includes`, `slice(0, n)`, the decimal
// rendering of an integer inside a template literal, and parseInt with no
// radix argument.

module JsBuiltins {
  import opened Wrappers

  /** WhiteSpace and LineTerminator of ECMAScript: what `\s` matches, what
      `trim` removes and what parseInt skips. */
  predicate IsWhitespace(c: char) {
    c == '\t' || c == '\n' || c == '\U{0B}' || c == '\U{0C}' || c == '\r' || c == ' '
    || c == '\U{A0}' || c == '\U{1680}' || ('\U{2000}' <= c <= '\U{200A}')
    || c == '\U{2028}' || c == '\U{2029}' || c == '\U{202F}' || c == '\U{205F}'
    || c == '\U{3000}' || c == '\U{FEFF}'
  }

  /** The characters of `s` that are not whitespace, in order. */
  function NonWhitespace(s: string): string {
    if s == [] then []
    else if IsWhitespace(s[0]) then NonWhitespace(s[1..])
    else [s[0]] + NonWhitespace(s[1..])
  }

  lemma {:induction false} NonWhitespaceAppend(a: string, b: string)
    ensures NonWhitespace(a + b) == NonWhitespace(a) + NonWhitespace(b)
  {
    if a == [] {
      assert a + b == b;
    } else {
      assert (a + b)[0] == a[0];
      assert (a + b)[1..] == a[1..] + b;
      NonWhitespaceAppend(a[1..], b);
    }
  }

  /** No character of `s` is whitespace. */
  predicate NoWhitespace(s: string) {
    forall i :: 0 <= i < |s| ==> !IsWhitespace(s[i])
  }

  /** No two whitespace characters stand next to each other. */
  predicate NoDoubleWhitespace(s: string) {
    forall i :: 0 <= i < |s| - 1 ==> !(IsWhitespace(s[i]) && IsWhitespace(s[i + 1]))
  }

  /** Every whitespace character of `s` is a plain space. */
  predicate OnlySpaces(s: string) {
    forall i :: 0 <= i < |s| && IsWhitespace(s[i]) ==> s[i] == ' '
  }

  predicate StartsWithWhitespace(s: string) {
    s != [] && IsWhitespace(s[0])
  }

  predicate EndsWithWhitespace(s: string) {
    s != [] && IsWhitespace(s[|s| - 1])
  }

  /** The leading-whitespace half of `trim`: drops the longest whitespace
      prefix (TrimStartDropsWhitespace says that what it drops is
      whitespace). */
  function TrimStart(s: string): (r: string)
    ensures |r| <= |s| && r == s[|s| - |r|..]
    ensures !StartsWithWhitespace(r)
  {
    if s != [] && IsWhitespace(s[0]) then
      var r := TrimStart(s[1..]);
      assert s[1..][|s[1..]| - |r|..] == s[|s| - |r|..];
      r
    else s
  }

  lemma {:induction false} TrimStartDropsWhitespace(s: string)
    ensures forall i :: 0 <= i < |s| - |TrimStart(s)| ==> IsWhitespace(s[i])
    ensures NonWhitespace(TrimStart(s)) == NonWhitespace(s)
  {
    if s != [] && IsWhitespace(s[0]) {
      TrimStartDropsWhitespace(s[1..]);
      assert TrimStart(s) == TrimStart(s[1..]);
      forall i | 1 <= i < |s| - |TrimStart(s)| ensures IsWhitespace(s[i]) {
        assert s[i] == s[1..][i - 1];
      }
    }
  }

  /** The trailing-whitespace half of `trim`: drops the longest whitespace
      suffix (TrimEndDropsWhitespace says that what it drops is
      whitespace). */
  function TrimEnd(s: string): (r: string)
    ensures |r| <= |s| && r == s[..|r|]
    ensures !EndsWithWhitespace(r)
  {
    if s != [] && IsWhitespace(s[|s| - 1]) then TrimEnd(s[..|s| - 1]) else s
  }

  lemma {:induction false} TrimEndDropsWhitespace(s: string)
    ensures forall i :: |TrimEnd(s)| <= i < |s| ==> IsWhitespace(s[i])
    ensures NonWhitespace(TrimEnd(s)) == NonWhitespace(s)
    decreases |s|
  {
    if s != [] && IsWhitespace(s[|s| - 1]) {
      var p := s[..|s| - 1];
      TrimEndDropsWhitespace(p);
      assert TrimEnd(s) == TrimEnd(p);
      assert s == p + [s[|s| - 1]];
      NonWhitespaceAppend(p, [s[|s| - 1]]);
      assert NonWhitespace([s[|s| - 1]]) == [];
    }
  }

  /** String.prototype.trim. */
  function Trim(s: string): (r: string)
    ensures |r| <= |s|
    ensures !StartsWithWhitespace(r) && !EndsWithWhitespace(r)
    ensures NonWhitespace(r) == NonWhitespace(s)
    ensures !StartsWithWhitespace(s) && !EndsWithWhitespace(s) ==> r == s
  {
    TrimStartDropsWhitespace(s);
    TrimEndDropsWhitespace(TrimStart(s));
    TrimEnd(TrimStart(s))
  }

  /** `s.replace(/\s+/g, " ")`: every maximal run of whitespace becomes
      one space. Scanning left to right, a whitespace character followed
      by more whitespace is dropped and the last one of its run is
      replaced by " ". */
  function CollapseWhitespace(s: string): string
    decreases |s|
  {
    if s == [] then []
    else if !IsWhitespace(s[0]) then [s[0]] + CollapseWhitespace(s[1..])
    else if StartsWithWhitespace(s[1..]) then CollapseWhitespace(s[1..])
    else " " + CollapseWhitespace(s[1..])
  }

  lemma ConsShape(c: char, r: string)
    requires NoDoubleWhitespace(r) && OnlySpaces(r)
    requires IsWhitespace(c) ==> c == ' ' && !StartsWithWhitespace(r)
    ensures NoDoubleWhitespace([c] + r) && OnlySpaces([c] + r)
  {
    var cr := [c] + r;
    forall i | 1 <= i < |cr| ensures cr[i] == r[i - 1] { }
  }

  lemma {:induction false} CollapseShape(s: string)
    ensures NoDoubleWhitespace(CollapseWhitespace(s))
    ensures OnlySpaces(CollapseWhitespace(s))
    ensures StartsWithWhitespace(CollapseWhitespace(s)) <==> StartsWithWhitespace(s)
    decreases |s|
  {
    if s != [] {
      var rt := CollapseWhitespace(s[1..]);
      CollapseShape(s[1..]);
      if !IsWhitespace(s[0]) {
        ConsShape(s[0], rt);
      } else if !StartsWithWhitespace(s[1..]) {
        ConsShape(' ', rt);
      }
    }
  }

  lemma {:induction false} CollapseKeepsText(s: string)
    ensures NonWhitespace(CollapseWhitespace(s)) == NonWhitespace(s)
    decreases |s|
  {
    if s != [] {
      var rt := CollapseWhitespace(s[1..]);
      CollapseKeepsText(s[1..]);
      if !IsWhitespace(s[0]) {
        assert ([s[0]] + rt)[1..] == rt;
      } else if !StartsWithWhitespace(s[1..]) {
        assert (" " + rt)[1..] == rt;
      }
    }
  }

  lemma {:induction false} CollapseKeepsEnd(s: string)
    ensures CollapseWhitespace(s) == [] <==> s == []
    ensures EndsWithWhitespace(CollapseWhitespace(s)) <==> EndsWithWhitespace(s)
    decreases |s|
  {
    if s != [] {
      CollapseKeepsEnd(s[1..]);
      assert s == [s[0]] + s[1..];
      CollapseEndStep(s[0], s[1..]);
    }
  }

  /** The inductive step of CollapseKeepsEnd, for a character `c` in front
      of `t`. */
  lemma CollapseEndStep(c: char, t: string)
    requires CollapseWhitespace(t) == [] <==> t == []
    requires EndsWithWhitespace(CollapseWhitespace(t)) <==> EndsWithWhitespace(t)
    ensures CollapseWhitespace([c] + t) != []
    ensures EndsWithWhitespace(CollapseWhitespace([c] + t)) <==> EndsWithWhitespace([c] + t)
  {
    if t == [] {
      assert [c] + t == [c];
      assert [c][1..] == [];
    } else {
      var s := [c] + t;
      assert s[|s| - 1] == t[|t| - 1];
      CollapseConsLast(c, t);
    }
  }

  /** Putting a character in front never changes how the collapse ends. */
  lemma CollapseConsLast(c: char, t: string)
    requires CollapseWhitespace(t) != []
    ensures var r := CollapseWhitespace([c] + t);
      r != [] && r[|r| - 1] == CollapseWhitespace(t)[|CollapseWhitespace(t)| - 1]
  {
    var s := [c] + t;
    var rt := CollapseWhitespace(t);
    assert s[0] == c && s[1..] == t;
    if !IsWhitespace(c) {
      var r := [c] + rt;
      assert CollapseWhitespace(s) == r;
      assert r[|r| - 1] == rt[|rt| - 1];
    } else if !StartsWithWhitespace(t) {
      var r := " " + rt;
      assert CollapseWhitespace(s) == r;
      assert r[|r| - 1] == rt[|rt| - 1];
    }
  }

  /** The collapse keeps every non-whitespace character in order, and ends
      in whitespace exactly when the input does. */
  lemma CollapseContent(s: string)
    ensures NonWhitespace(CollapseWhitespace(s)) == NonWhitespace(s)
    ensures EndsWithWhitespace(CollapseWhitespace(s)) <==> EndsWithWhitespace(s)
  {
    CollapseKeepsText(s);
    CollapseKeepsEnd(s);
  }

  /** What `.replace(/\s+/g, " ").trim()` leaves: single spaces between
      words and none at either end. */
  predicate Normalized(s: string) {
    !StartsWithWhitespace(s) && !EndsWithWhitespace(s) && NoDoubleWhitespace(s) && OnlySpaces(s)
  }

  /** `.replace(/\s+/g, " ").trim()` */
  function CollapseAndTrim(s: string): string {
    Trim(CollapseWhitespace(s))
  }

  lemma SliceKeepsShape(s: string, a: nat, b: nat)
    requires a <= b <= |s|
    requires NoDoubleWhitespace(s) && OnlySpaces(s)
    ensures NoDoubleWhitespace(s[a..b]) && OnlySpaces(s[a..b])
  {
    var t := s[a..b];
    forall i | 0 <= i < |t| ensures t[i] == s[a + i] { }
  }

  lemma TrimKeepsShape(s: string)
    requires NoDoubleWhitespace(s) && OnlySpaces(s)
    ensures NoDoubleWhitespace(Trim(s)) && OnlySpaces(Trim(s))
  {
    var t := TrimStart(s);
    SliceKeepsShape(s, |s| - |t|, |s|);
    var r := TrimEnd(t);
    SliceKeepsShape(t, 0, |r|);
  }

  /** Text with single spaces only is its own collapse. */
  lemma {:induction false} CollapseIdentity(s: string)
    requires NoDoubleWhitespace(s) && OnlySpaces(s)
    ensures CollapseWhitespace(s) == s
    decreases |s|
  {
    if s != [] {
      var t := s[1..];
      assert NoDoubleWhitespace(t) && OnlySpaces(t) by {
        forall i | 0 <= i < |t| ensures t[i] == s[i + 1] { }
      }
      CollapseIdentity(t);
      if IsWhitespace(s[0]) {
        assert s[0] == ' ';
        assert !StartsWithWhitespace(t) by { if t != [] { assert t[0] == s[1]; } }
      }
      assert s == [s[0]] + t;
    }
  }

  /** Every character of `s` is whitespace. */
  predicate AllWhitespace(s: string) {
    forall i :: 0 <= i < |s| ==> IsWhitespace(s[i])
  }

  /** The leading whitespace of `a + b` is that of `a`, continued into `b`
      only when `a` is whitespace throughout. */
  lemma {:induction false} TrimStartAppend(a: string, b: string)
    ensures TrimStart(a) != [] ==> TrimStart(a + b) == TrimStart(a) + b
    ensures TrimStart(a) == [] ==> TrimStart(a + b) == TrimStart(b)
  {
    if a == [] {
      assert a + b == b;
    } else {
      assert (a + b)[0] == a[0];
      assert (a + b)[1..] == a[1..] + b;
      if IsWhitespace(a[0]) {
        TrimStartAppend(a[1..], b);
      }
    }
  }

  /** The trailing whitespace of `a + b` is that of `b`, continued into `a`
      only when `b` is whitespace throughout. */
  lemma {:induction false} TrimEndAppend(a: string, b: string)
    ensures TrimEnd(b) != [] ==> TrimEnd(a + b) == a + TrimEnd(b)
    ensures TrimEnd(b) == [] ==> TrimEnd(a + b) == TrimEnd(a)
    decreases |b|
  {
    if b == [] {
      assert a + b == a;
    } else {
      var ab := a + b;
      assert ab[|ab| - 1] == b[|b| - 1];
      assert ab[..|ab| - 1] == a + b[..|b| - 1];
      if IsWhitespace(b[|b| - 1]) {
        TrimEndAppend(a, b[..|b| - 1]);
      }
    }
  }

  /** Collapsing works run by run, so it distributes over a concatenation
      that does not split a whitespace run. */
  lemma {:induction false} CollapseAppend(a: string, b: string)
    requires !EndsWithWhitespace(a) || !StartsWithWhitespace(b)
    ensures CollapseWhitespace(a + b) == CollapseWhitespace(a) + CollapseWhitespace(b)
    decreases |a|
  {
    if a == [] {
      assert a + b == b;
    } else if |a| == 1 {
      CollapseAppendLast(a, b);
    } else {
      assert a[1..][|a[1..]| - 1] == a[|a| - 1];
      CollapseAppend(a[1..], b);
      CollapseAppendStep(a, b);
    }
  }

  /** CollapseAppend for a single character in front of `b`. */
  lemma CollapseAppendLast(a: string, b: string)
    requires |a| == 1 && (IsWhitespace(a[0]) ==> !StartsWithWhitespace(b))
    ensures CollapseWhitespace(a + b) == CollapseWhitespace(a) + CollapseWhitespace(b)
  {
    var ab := a + b;
    assert ab[0] == a[0] && ab[1..] == b;
    assert a[1..] == [];
  }

  /** The inductive step of CollapseAppend: the first character of `a`
      is handled the same way in front of `a[1..]` and of `a[1..] + b`. */
  lemma CollapseAppendStep(a: string, b: string)
    requires |a| >= 2
    requires CollapseWhitespace(a[1..] + b) == CollapseWhitespace(a[1..]) + CollapseWhitespace(b)
    ensures CollapseWhitespace(a + b) == CollapseWhitespace(a) + CollapseWhitespace(b)
  {
    var ab := a + b;
    var a', rb := a[1..], CollapseWhitespace(b);
    var ra := CollapseWhitespace(a');
    assert ab[0] == a[0] && ab[1..] == a' + b;
    assert (a' + b)[0] == a'[0];
    if !IsWhitespace(a[0]) {
      assert [a[0]] + (ra + rb) == ([a[0]] + ra) + rb;
    } else if !StartsWithWhitespace(a') {
      assert " " + (ra + rb) == (" " + ra) + rb;
    }
  }

  /** A whitespace run in front of a word becomes one space. */
  lemma {:induction false} CollapseLeadingRun(w: string, b: string)
    requires w != [] && AllWhitespace(w) && !StartsWithWhitespace(b)
    ensures CollapseWhitespace(w + b) == " " + CollapseWhitespace(b)
    decreases |w|
  {
    var wb := w + b;
    assert wb[0] == w[0];
    assert wb[1..] == w[1..] + b;
    if |w| == 1 {
      assert w[1..] + b == b;
    } else {
      assert (w[1..] + b)[0] == w[1];
      CollapseLeadingRun(w[1..], b);
    }
  }

  /** `/\s+/g` replaced by " ": each maximal whitespace run between two
      pieces of text becomes exactly one space, in place. */
  lemma CollapseRun(a: string, w: string, b: string)
    requires w != [] && AllWhitespace(w)
    requires !EndsWithWhitespace(a) && !StartsWithWhitespace(b)
    ensures CollapseWhitespace(a + w + b) == CollapseWhitespace(a) + " " + CollapseWhitespace(b)
  {
    assert a + w + b == a + (w + b);
    CollapseAppend(a, w + b);
    CollapseLeadingRun(w, b);
  }

  /** Trimming two pieces of text joined by a space, where the join is
      not itself next to more whitespace and each piece holds a word,
      trims each piece on its outer side only. */
  lemma TrimJoin(x: string, y: string)
    requires !EndsWithWhitespace(x) && !StartsWithWhitespace(y)
    requires NonWhitespace(x) != [] && NonWhitespace(y) != []
    ensures Trim(x + " " + y) == Trim(x) + " " + Trim(y)
  {
    var x' := TrimStart(x);
    HoldsText(x);
    HoldsText(y);
    TrimStartEnds(x);
    calc {
      Trim(x + " " + y);
      TrimEnd(TrimStart(x + " " + y));
      { TrimStartJoin(x, y); }
      TrimEnd((x' + " ") + y);
      { TrimEndAppend(x' + " ", y); }
      (x' + " ") + TrimEnd(y);
      { TrimEndNoop(x'); TrimStartNoop(y); }
      Trim(x) + " " + Trim(y);
    }
  }

  lemma TrimStartJoin(x: string, y: string)
    requires TrimStart(x) != []
    ensures TrimStart(x + " " + y) == (TrimStart(x) + " ") + y
  {
    assert x + " " + y == x + (" " + y);
    TrimStartAppend(x, " " + y);
    assert TrimStart(x) + (" " + y) == (TrimStart(x) + " ") + y;
  }

  /** Text holding a word trims to something on either side. */
  lemma HoldsText(s: string)
    requires NonWhitespace(s) != []
    ensures TrimStart(s) != [] && TrimEnd(s) != []
  {
    TrimStartDropsWhitespace(s);
    TrimEndDropsWhitespace(s);
  }

  lemma TrimStartEnds(s: string)
    requires TrimStart(s) != [] && !EndsWithWhitespace(s)
    ensures !EndsWithWhitespace(TrimStart(s))
  {
    var t := TrimStart(s);
    assert t[|t| - 1] == s[|s| - 1];
  }

  lemma TrimEndNoop(s: string)
    requires !EndsWithWhitespace(s)
    ensures TrimEnd(s) == s
  {
  }

  lemma TrimStartNoop(s: string)
    requires !StartsWithWhitespace(s)
    ensures TrimStart(s) == s
  {
  }

  /** `.replace(/\s+/g, " ").trim()` keeps words apart: two pieces of text
      that each hold a word, joined by a whitespace run, come out as their
      own normalisations joined by one space. */
  lemma CollapseAndTrimRun(a: string, w: string, b: string)
    requires w != [] && AllWhitespace(w)
    requires !EndsWithWhitespace(a) && !StartsWithWhitespace(b)
    requires NonWhitespace(a) != [] && NonWhitespace(b) != []
    ensures CollapseAndTrim(a + w + b) == CollapseAndTrim(a) + " " + CollapseAndTrim(b)
  {
    var x := CollapseWhitespace(a);
    var y := CollapseWhitespace(b);
    CollapseRun(a, w, b);
    CollapseKeepsText(a);
    CollapseKeepsText(b);
    CollapseKeepsEnd(a);
    CollapseShape(b);
    TrimJoin(x, y);
    assert CollapseAndTrim(a + w + b) == Trim(x + " " + y);
  }

  /** Trimming text that has only single spaces leaves it normalized. */
  lemma TrimNormalizes(c: string)
    requires NoDoubleWhitespace(c) && OnlySpaces(c)
    ensures Normalized(Trim(c)) && NonWhitespace(Trim(c)) == NonWhitespace(c)
  {
    TrimKeepsShape(c);
  }

  lemma NormalizedFixed(s: string)
    requires Normalized(s)
    ensures CollapseAndTrim(s) == s
  {
    CollapseIdentity(s);
  }

  /** The body-text normalisation leaves exactly the normalized strings
      unchanged, and always produces one while keeping every
      non-whitespace character in order. */
  lemma CollapseAndTrimSpec(s: string)
    ensures Normalized(CollapseAndTrim(s))
    ensures NonWhitespace(CollapseAndTrim(s)) == NonWhitespace(s)
    ensures CollapseAndTrim(s) == s <==> Normalized(s)
  {
    var c := CollapseWhitespace(s);
    CollapseShape(s);
    CollapseKeepsText(s);
    TrimNormalizes(c);
    assert CollapseAndTrim(s) == Trim(c);
    if Normalized(s) {
      NormalizedFixed(s);
    }
  }

  /** `s.slice(0, n)` for a non-negative `n`. */
  function SliceTo(s: string, n: nat): (r: string)
    ensures |r| == if |s| < n then |s| else n
    ensures r == s[..|r|]
  {
    if |s| <= n then s else s[..n]
  }

  predicate StartsWith(s: string, p: string) {
    |p| <= |s| && s[..|p|] == p
  }

  /** String.prototype.includes. */
  predicate Includes(s: string, p: string) {
    StartsWith(s, p) || (s != [] && Includes(s[1..], p))
  }

  lemma {:induction false} IncludesSuffix(s: string, k: nat, p: string)
    requires k <= |s|
    requires Includes(s[k..], p)
    ensures Includes(s, p)
  {
    if k > 0 {
      assert s[1..][k - 1..] == s[k..];
      IncludesSuffix(s[1..], k - 1, p);
    }
  }

  lemma {:induction false} IncludesPrefix(s: string, k: nat, p: string)
    requires k <= |s|
    requires Includes(s[..k], p)
    ensures Includes(s, p)
  {
    if StartsWith(s[..k], p) {
      assert s[..k][..|p|] == s[..|p|];
    } else {
      assert s[..k][1..] == s[1..][..k - 1];
      IncludesPrefix(s[1..], k - 1, p);
    }
  }

  /** Trimming cannot create an occurrence of `p` that was not there. */
  lemma TrimKeepsAbsence(s: string, p: string)
    requires !Includes(s, p)
    ensures !Includes(Trim(s), p)
  {
    var t := TrimStart(s);
    if Includes(t, p) { IncludesSuffix(s, |s| - |t|, p); }
    var r := TrimEnd(t);
    if Includes(r, p) { IncludesPrefix(t, |r|, p); }
  }

  // ---------------------------------------------------------------------
  // Numbers in text

  function DigitChar(d: nat): (c: char)
    requires d < 10
  {
    ['0', '1', '2', '3', '4', '5', '6', '7', '8', '9'][d]
  }

  predicate IsDecimalDigit(c: char) {
    '0' <= c <= '9'
  }

  /** Decimal rendering of a natural number, as `${n}` gives it. */
  function NatToString(n: nat): (r: string)
    ensures |r| >= 1
    ensures forall i :: 0 <= i < |r| ==> IsDecimalDigit(r[i])
    ensures r[0] == '0' ==> n == 0
  {
    if n < 10 then [DigitChar(n)] else NatToString(n / 10) + [DigitChar(n % 10)]
  }

  /** `${n}` for an integer-valued JS number. */
  function IntToString(n: int): (r: string)
    ensures |r| >= 1
    ensures n < 0 <==> r[0] == '-'
  {
    if n < 0 then "-" + NatToString(-n) else NatToString(n)
  }

  /** The value of character `c` as a digit in base `radix` (10 or 16). */
  function DigitValue(c: char, radix: nat): Option<nat> {
    if '0' <= c <= '9' then Some(c as int - '0' as int)
    else if radix == 16 && 'a' <= c <= 'f' then Some(c as int - 'a' as int + 10)
    else if radix == 16 && 'A' <= c <= 'F' then Some(c as int - 'A' as int + 10)
    else None
  }

  /** The longest prefix of `s` made of digits of base `radix`. */
  function DigitRun(s: string, radix: nat): (r: string)
    ensures |r| <= |s| && r == s[..|r|]
    ensures forall i :: 0 <= i < |r| ==> DigitValue(r[i], radix).Some?
    ensures |r| < |s| ==> DigitValue(s[|r|], radix).None?
  {
    if s != [] && DigitValue(s[0], radix).Some? then [s[0]] + DigitRun(s[1..], radix) else []
  }

  /** Positional value of a run of digits, most significant first. */
  function DigitsValue(ds: string, radix: nat): nat
    requires forall i :: 0 <= i < |ds| ==> DigitValue(ds[i], radix).Some?
  {
    if ds == [] then 0
    else DigitsValue(ds[..|ds| - 1], radix) * radix + DigitValue(ds[|ds| - 1], radix).value
  }

  /** The digits part of parseInt: a `0x`/`0X` prefix switches to base 16,
      then the longest run of digits is read; `None` when there is none. */
  function ParseUnsigned(u: string): Option<nat> {
    var hex := |u| >= 2 && u[0] == '0' && (u[1] == 'x' || u[1] == 'X');
    var radix := if hex then 16 else 10;
    var ds := DigitRun(if hex then u[2..] else u, radix);
    if ds == [] then None else Some(DigitsValue(ds, radix))
  }

  /** The global parseInt(s) with no radix: skip leading whitespace, take an
      optional sign, then read the digits. `None` stands for NaN. */
  function ParseInt(s: string): Option<int> {
    var t := TrimStart(s);
    var negative := t != [] && t[0] == '-';
    var u := if t != [] && (t[0] == '-' || t[0] == '+') then t[1..] else t;
    match ParseUnsigned(u)
    case None => None
    case Some(v) => Some(if negative then -(v as int) else v as int)
  }

  lemma {:induction false} NatToStringValue(n: nat)
    ensures DigitsValue(NatToString(n), 10) == n
  {
    var r := NatToString(n);
    if n < 10 {
      DigitCharValue(n);
      assert r[..0] == [];
    } else {
      var q, d := n / 10, n % 10;
      var p := NatToString(q);
      assert r == p + [DigitChar(d)];
      assert r[..|r| - 1] == p;
      NatToStringValue(q);
      DigitCharValue(d);
      assert DigitsValue(r, 10) == q * 10 + d;
    }
  }

  lemma DigitCharValue(d: nat)
    requires d < 10
    ensures DigitValue(DigitChar(d), 10) == Some(d)
  {
  }

  lemma {:induction false} DigitRunStops(ds: string, rest: string)
    requires forall i :: 0 <= i < |ds| ==> IsDecimalDigit(ds[i])
    requires rest == [] || !IsDecimalDigit(rest[0])
    ensures DigitRun(ds + rest, 10) == ds
  {
    if ds == [] {
      assert ds + rest == rest;
    } else {
      assert (ds + rest)[0] == ds[0];
      assert (ds + rest)[1..] == ds[1..] + rest;
      DigitRunStops(ds[1..], rest);
    }
  }

  /** What may follow the decimal rendering of `n` for parseInt to stop
      right after it: no further digit, and after a lone "0" no `x`/`X`,
      which would turn "0x" into a hexadecimal prefix. */
  predicate EndsNumber(n: int, rest: string) {
    rest == [] || (!IsDecimalDigit(rest[0]) && (n != 0 || (rest[0] != 'x' && rest[0] != 'X')))
  }

  lemma ParseDigits(m: nat, rest: string)
    requires EndsNumber(m, rest)
    ensures ParseUnsigned(NatToString(m) + rest) == Some(m)
  {
    var digits := NatToString(m);
    var u := digits + rest;
    assert u[0] == digits[0];
    assert !(|u| >= 2 && u[0] == '0' && (u[1] == 'x' || u[1] == 'X')) by {
      if |u| >= 2 && u[0] == '0' {
        assert m == 0 && |digits| == 1;
        assert u[1] == rest[0];
      }
    }
    DigitRunStops(digits, rest);
    NatToStringValue(m);
  }

  lemma ParseNatString(m: nat, rest: string)
    requires EndsNumber(m, rest)
    ensures ParseInt(NatToString(m) + rest) == Some(m)
  {
    var digits := NatToString(m);
    var s := digits + rest;
    assert s[0] == digits[0];
    ParseDigits(m, rest);
    ParseUnsignedText(s);
  }

  /** Text that starts with neither whitespace nor a sign is read by
      parseInt exactly as its digits part reads it. */
  lemma ParseUnsignedText(s: string)
    requires s != [] && !IsWhitespace(s[0]) && s[0] != '-' && s[0] != '+'
    ensures ParseUnsigned(s).None? ==> ParseInt(s) == None
    ensures ParseUnsigned(s).Some? ==> ParseInt(s) == Some(ParseUnsigned(s).value as int)
  {
    TrimStartNoop(s);
  }

  lemma ParseNegativeString(m: nat, rest: string)
    requires m > 0 && EndsNumber(m, rest)
    ensures ParseInt("-" + NatToString(m) + rest) == Some(-(m as int))
  {
    var digits := NatToString(m) + rest;
    assert "-" + NatToString(m) + rest == "-" + digits;
    ParseDigits(m, rest);
    ParseMinus(digits, m);
  }

  /** A leading minus sign negates what the digits after it read as. */
  lemma ParseMinus(digits: string, v: nat)
    requires ParseUnsigned(digits) == Some(v)
    ensures ParseInt("-" + digits) == Some(-(v as int))
  {
    var s := "-" + digits;
    assert s[0] == '-' && !IsWhitespace(s[0]);
    TrimStartNoop(s);
    assert s[1..] == digits;
  }

  /** parseInt reads back exactly the integer that `${n}` wrote, whatever
      text follows it that does not start with a digit (or, after "0", with
      `x`/`X`). */
  lemma ParseIntRoundTrip(n: int, rest: string)
    requires EndsNumber(n, rest)
    ensures ParseInt(IntToString(n) + rest) == Some(n)
  {
    if n < 0 {
      var m: nat := -n;
      assert IntToString(n) + rest == "-" + NatToString(m) + rest;
      ParseNegativeString(m, rest);
    } else {
      assert IntToString(n) == NatToString(n);
      ParseNatString(n, rest);
    }
  }

  /** Text whose first character is neither whitespace, a sign nor a
      decimal digit is NaN to parseInt. */
  lemma ParseIntNaN(s: string)
    requires s != [] && !IsWhitespace(s[0]) && !IsDecimalDigit(s[0]) && s[0] != '-' && s[0] != '+'
    ensures ParseInt(s) == None
  {
    assert DigitRun(s, 10) == [] by {
      assert DigitValue(s[0], 10).None?;
    }
    assert ParseUnsigned(s) == None;
    ParseUnsignedText(s);
  }
}
