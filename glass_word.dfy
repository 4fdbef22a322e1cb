/**
 * The layout of the glass word (components/ui/LiquidGlassWord.tsx): one letter per
 * character of the word, its React key, and where along the x axis it is placed. The
 * three.js scene itself is not part of this model.
 */
module GlassWord {
  import opened JsText
  import opened RealArith

  const DefaultWord: string := "BLUEPMS"
  const DefaultHeight: real := 220.0

  /** One `GlassLetter` element: its key, its character (the `char` prop), its x position and its font size. */
  datatype Letter = Letter(key: string, glyph: char, x: real, fontSize: real)

  /** `Math.max(1, height / 220) * 1.35`. */
  function FontSize(height: real): (f: real)
    ensures f >= 1.35
    ensures height <= 220.0 ==> f == 1.35
    ensures height >= 220.0 ==> f == height / 220.0 * 1.35
  {
    var h := height / 220.0;
    (if h < 1.0 then 1.0 else h) * 1.35
  }

  /** `fontSize * 1.0`: the gap between two neighbouring letters. */
  function Spacing(fontSize: real): real {
    fontSize * 1.0
  }

  /**
   * `-((chars.length - 1) * spacing * 1.2) / 2`: the word's widened width is centred, so
   * the first letter sits 0.6 (n - 1) spacings left of the origin.
   */
  function StartX(n: nat, spacing: real): (x: real)
    ensures n <= 1 ==> x == 0.6 * spacing * (1.0 - n as real)
    ensures n >= 1 && spacing >= 0.0 ==> x <= 0.0
  {
    var w := ((n as real) - 1.0) * spacing;
    assert n >= 1 && spacing >= 0.0 ==> w >= 0.0 by {
      if n >= 1 && spacing >= 0.0 {
        MulNonneg((n as real) - 1.0, spacing);
      }
    }
    -(w * 1.2) / 2.0
  }

  /** The key `${c}-${i}`: the character, a dash, and the index in decimal. */
  function Key(c: char, i: nat): (k: string)
    ensures |k| >= 3 && k[0] == c && k[1] == '-' && k[2..] == NatToString(i)
  {
    [c] + "-" + NatToString(i)
  }

  /** `startX + i * spacing` for each of the `n` letters. */
  function Positions(n: nat, fontSize: real): (xs: seq<real>)
    ensures |xs| == n
  {
    var spacing := Spacing(fontSize);
    var startX := StartX(n, spacing);
    seq(n, i requires 0 <= i < n => startX + (i as real) * spacing)
  }

  /** `chars.map((c, i) => <GlassLetter ... />)` over `word.split("")`. */
  function Letters(word: string, height: real): (ls: seq<Letter>)
    ensures |ls| == |word|
    ensures forall i :: 0 <= i < |ls| ==> ls[i].x == Positions(|word|, FontSize(height))[i]
  {
    var fontSize := FontSize(height);
    var xs := Positions(|word|, fontSize);
    seq(|word|, i requires 0 <= i < |word| => Letter(Key(word[i], i), word[i], xs[i], fontSize))
  }

  /** The letters spell the word, in order, all at the same size. */
  lemma LettersSpellWord(word: string, height: real)
    ensures var ls := Letters(word, height);
      && |ls| == |word|
      && forall i :: 0 <= i < |ls| ==> ls[i].glyph == word[i] && ls[i].fontSize == FontSize(height)
  {
  }

  /** The index after the dash of a key is the letter's position, so different positions give different keys. */
  lemma KeyInjective(c: char, i: nat, d: char, j: nat)
    ensures Key(c, i) == Key(d, j) ==> c == d && i == j
  {
    if Key(c, i) == Key(d, j) {
      assert Key(c, i)[0] == c && Key(d, j)[0] == d;
      assert Key(c, i)[2..] == NatToString(i);
      assert Key(d, j)[2..] == NatToString(j);
      NatToStringInjective(i, j);
    }
  }

  /** The React keys of the letters are pairwise distinct, even when a character repeats. */
  lemma KeysDistinct(word: string, height: real, i: nat, j: nat)
    requires i < j < |word|
    ensures Letters(word, height)[i].key != Letters(word, height)[j].key
  {
    KeyInjective(word[i], i, word[j], j);
  }

  /** Neighbouring letters are exactly one spacing, which is the font size, apart. */
  lemma ConstantGap(n: nat, fontSize: real, i: nat)
    requires i + 1 < n
    ensures var xs := Positions(n, fontSize); xs[i + 1] - xs[i] == fontSize
  {
    var xs := Positions(n, fontSize);
    var pi, pj := (i as real) * fontSize, ((i + 1) as real) * fontSize;
    assert xs[i] == StartX(n, fontSize) + pi && xs[i + 1] == StartX(n, fontSize) + pj;
    ProductDifference(i as real, (i + 1) as real, fontSize, pi, pj);
  }

  /** With a positive font size, positions increase strictly from left to right. */
  lemma PositionsIncrease(n: nat, fontSize: real, i: nat, j: nat)
    requires fontSize > 0.0 && i < j < n
    ensures Positions(n, fontSize)[i] < Positions(n, fontSize)[j]
  {
    var xs := Positions(n, fontSize);
    var pi, pj, d := (i as real) * fontSize, (j as real) * fontSize, ((j - i) as real) * fontSize;
    assert xs[i] == StartX(n, fontSize) + pi && xs[j] == StartX(n, fontSize) + pj;
    ProductDifference(i as real, j as real, fontSize, pi, pj);
    ProductAtLeastFactor((j - i) as real, fontSize, d);
  }

  /** The letters of the word are laid out left to right, one font size apart. */
  lemma LettersIncrease(word: string, height: real, i: nat)
    requires i + 1 < |word|
    ensures var ls := Letters(word, height);
      ls[i + 1].x - ls[i].x == FontSize(height) && ls[i].x < ls[i + 1].x
  {
    ConstantGap(|word|, FontSize(height), i);
  }

  /** The first letter sits 0.6 (n-1) spacings left of the centre and the last 0.4 (n-1) right of it. */
  lemma WordPlacement(n: nat, fontSize: real)
    requires n >= 1
    ensures var xs := Positions(n, fontSize); var w := ((n as real) - 1.0) * fontSize;
      xs[0] == -0.6 * w && xs[n - 1] == 0.4 * w
  {
    var w := ((n as real) - 1.0) * fontSize;
    assert StartX(n, Spacing(fontSize)) == -0.6 * w;
    assert ((n - 1) as real) * fontSize == w;
  }

  /** A one-letter word is centred. */
  lemma SingleLetterCentred(c: char, height: real)
    ensures Letters([c], height)[0].x == 0.0
  {
    WordPlacement(1, FontSize(height));
  }

  /** With the defaults: seven letters of size 1.35 spread from -4.86 to 3.24. */
  lemma DefaultLayout()
    ensures var ls := Letters(DefaultWord, DefaultHeight);
      && |ls| == 7 && ls[0].fontSize == 1.35
      && ls[0].x == -4.86 && ls[6].x == 3.24
  {
    WordPlacement(7, 1.35);
  }
}
