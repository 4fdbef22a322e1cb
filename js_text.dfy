/**
 * The JavaScript string primitives the contact form and the contact API rely on: the
 * white-space class shared by `String.prototype.trim`, the regular-expression class `\s`
 * and `Number(string)`, and `trim` itself.
 */
module JsText {
  /** WhiteSpace and LineTerminator code points of ECMAScript. */
  predicate IsJsWhitespace(c: char) {
    || c == '\t' || c == '\n' || c == '\U{000B}' || c == '\U{000C}' || c == '\r' || c == ' '
    || c == '\U{00A0}' || c == '\U{1680}' || ('\U{2000}' <= c <= '\U{200A}')
    || c == '\U{2028}' || c == '\U{2029}' || c == '\U{202F}' || c == '\U{205F}'
    || c == '\U{3000}' || c == '\U{FEFF}'
  }

  predicate AllWhitespace(s: string) {
    forall i :: 0 <= i < |s| ==> IsJsWhitespace(s[i])
  }

  /** `trimStart`: drops the leading white space and nothing else. */
  function TrimStart(s: string): (r: string)
    ensures |r| <= |s| && r == s[|s| - |r|..]
    ensures AllWhitespace(s[..|s| - |r|])
    ensures r == [] || !IsJsWhitespace(r[0])
  {
    if s != [] && IsJsWhitespace(s[0]) then
      var r := TrimStart(s[1..]);
      assert s[..|s| - |r|] == [s[0]] + s[1..][..|s| - 1 - |r|];
      r
    else
      s
  }

  /** `trimEnd`: drops the trailing white space and nothing else. */
  function TrimEnd(s: string): (r: string)
    ensures |r| <= |s| && r == s[..|r|]
    ensures AllWhitespace(s[|r|..])
    ensures r == [] || !IsJsWhitespace(r[|r| - 1])
  {
    if s != [] && IsJsWhitespace(s[|s| - 1]) then
      var r := TrimEnd(s[..|s| - 1]);
      assert s[|r|..] == s[..|s| - 1][|r|..] + [s[|s| - 1]];
      r
    else
      s
  }

  /** `String.prototype.trim`: white space gone from both ends, and only from there. */
  function Trim(s: string): (r: string)
    ensures |r| <= |s|
    ensures r == [] <==> AllWhitespace(s)
    ensures r != [] ==> !IsJsWhitespace(r[0]) && !IsJsWhitespace(r[|r| - 1])
  {
    var t := TrimStart(s);
    var r := TrimEnd(t);
    assert r == [] ==> AllWhitespace(s) by {
      if r == [] {
        // t has no leading white space, so it is empty too
        assert t == [];
        forall i | 0 <= i < |s| ensures IsJsWhitespace(s[i]) {
          assert s[i] == s[..|s|][i];
        }
      }
    }
    assert r != [] ==> !IsJsWhitespace(r[0]) by {
      if r != [] { assert r[0] == t[0]; }
    }
    r
  }

  /** Trim removes white space at the two ends and nothing else. */
  lemma TrimDecomposes(s: string)
    ensures exists lead: string, trail: string ::
      AllWhitespace(lead) && AllWhitespace(trail) && s == lead + Trim(s) + trail
  {
    var t := TrimStart(s);
    var lead := TrimStartSplit(s);
    var trail := TrimEndSplit(t);
    var r := TrimEnd(t);
    assert Trim(s) == r;
    ConcatAssoc(lead, r, trail);
  }

  lemma ConcatAssoc(a: string, b: string, c: string)
    ensures a + (b + c) == a + b + c
  {
  }

  /** What trimStart drops: `s == lead + TrimStart(s)` with white-space `lead`. */
  lemma TrimStartSplit(s: string) returns (lead: string)
    ensures AllWhitespace(lead) && s == lead + TrimStart(s)
  {
    lead := s[..|s| - |TrimStart(s)|];
  }

  /** What trimEnd drops: `t == TrimEnd(t) + trail` with white-space `trail`. */
  lemma TrimEndSplit(t: string) returns (trail: string)
    ensures AllWhitespace(trail) && t == TrimEnd(t) + trail
  {
    trail := t[|TrimEnd(t)|..];
  }

  /** A string with no white space at either end is its own trim. */
  lemma TrimUnpadded(core: string)
    requires core == [] || (!IsJsWhitespace(core[0]) && !IsJsWhitespace(core[|core| - 1]))
    ensures Trim(core) == core
  {
  }

  /** Trim returns the core of any decomposition `lead + core + trail`: the reference characterisation of `trim`. */
  lemma TrimOfCore(lead: string, core: string, trail: string)
    requires AllWhitespace(lead) && AllWhitespace(trail)
    requires core == [] || (!IsJsWhitespace(core[0]) && !IsJsWhitespace(core[|core| - 1]))
    ensures Trim(lead + core + trail) == core
  {
    TrimPadded(core, lead, trail);
    TrimUnpadded(core);
  }

  /** White space added around a string is trimmed away with the rest. */
  lemma TrimPadded(v: string, lead: string, trail: string)
    requires AllWhitespace(lead) && AllWhitespace(trail)
    ensures Trim(lead + v + trail) == Trim(v)
  {
    assert lead + v + trail == lead + (v + trail);
    TrimStartSkips(lead, v + trail);
    var t := TrimStart(v);
    if t != [] {
      TrimStartAppend(v, trail);
      TrimEndSkips(t, trail);
    } else {
      assert AllWhitespace(v) by { assert v[..|v|] == v; }
      TrimStartSkips(v, trail);
      TrimStartSkips(trail, []);
      assert trail + [] == trail;
    }
  }

  /** Leading white space makes no difference to `trimStart`. */
  lemma {:induction false} TrimStartSkips(w: string, x: string)
    requires AllWhitespace(w)
    ensures TrimStart(w + x) == TrimStart(x)
  {
    if w == [] {
      assert w + x == x;
    } else {
      assert (w + x)[0] == w[0] && (w + x)[1..] == w[1..] + x;
      assert IsJsWhitespace(w[0]);
      TrimStartSkips(w[1..], x);
    }
  }

  /** Trailing white space makes no difference to `trimEnd`. */
  lemma {:induction false} TrimEndSkips(x: string, w: string)
    requires AllWhitespace(w)
    ensures TrimEnd(x + w) == TrimEnd(x)
    decreases |w|
  {
    if w == [] {
      assert x + w == x;
    } else {
      var u := w[..|w| - 1];
      assert (x + w)[|x + w| - 1] == w[|w| - 1] && (x + w)[..|x + w| - 1] == x + u;
      assert IsJsWhitespace(w[|w| - 1]);
      TrimEndSkips(x, u);
    }
  }

  /** Once the leading white space ends inside `v`, what follows `v` is kept as it is. */
  lemma {:induction false} TrimStartAppend(v: string, t: string)
    requires TrimStart(v) != []
    ensures TrimStart(v + t) == TrimStart(v) + t
  {
    assert (v + t)[0] == v[0];
    if IsJsWhitespace(v[0]) {
      assert (v + t)[1..] == v[1..] + t;
      TrimStartAppend(v[1..], t);
    }
  }

  /** Trimming twice is trimming once. */
  lemma TrimIdempotent(s: string)
    ensures Trim(Trim(s)) == Trim(s)
  {
    TrimUnpadded(Trim(s));
  }

  // ----- decimal digits: `String(n)` for a natural number, and reading digits back -----

  predicate IsDigit(c: char) {
    '0' <= c <= '9'
  }

  predicate AllDigits(s: string) {
    forall i :: 0 <= i < |s| ==> IsDigit(s[i])
  }

  function DigitChar(d: nat): (c: char)
    requires d < 10
    ensures IsDigit(c) && c as int - '0' as int == d
  {
    ('0' as int + d) as char
  }

  /** The decimal numeral of a natural number, as template literals and `String` write it. */
  function NatToString(n: nat): (s: string)
    ensures |s| >= 1 && AllDigits(s)
    ensures s[0] == '0' ==> n == 0 && s == "0"
  {
    if n < 10 then [DigitChar(n)] else NatToString(n / 10) + [DigitChar(n % 10)]
  }

  /** The value of a string of decimal digits. */
  function DecimalValue(s: string): nat
    requires AllDigits(s)
  {
    if s == [] then 0 else DecimalValue(s[..|s| - 1]) * 10 + (s[|s| - 1] as int - '0' as int)
  }

  /** Reading back the numeral gives the number. */
  lemma {:induction false} DecimalValueOfNatToString(n: nat)
    ensures DecimalValue(NatToString(n)) == n
  {
    if n >= 10 {
      DecimalValueOfNatToString(n / 10);
      var s := NatToString(n);
      assert s[..|s| - 1] == NatToString(n / 10);
    }
  }

  /** Distinct numbers have distinct numerals. */
  lemma NatToStringInjective(m: nat, n: nat)
    ensures NatToString(m) == NatToString(n) ==> m == n
  {
    DecimalValueOfNatToString(m);
    DecimalValueOfNatToString(n);
  }
}
