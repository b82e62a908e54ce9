/** The redaction on texts of a known shape, and its output, in terms of characters alone. */
module RedactionLaws {
  import opened Redaction
  import opened RedactionKeeps
  import RedactionFixed
  import opened Text

  const WORDS := {"password", "passwd", "secret", "api_key", "token"}

  /** A quote, a colon, an equals sign or whitespace. */
  predicate Separates(c: char) { c in "\":=" || c in WHITESPACE }

  /** A comma, a quote, a brace or whitespace. */
  predicate EndsValue(c: char) { c in ",\"{}" || c in WHITESPACE }

  predicate IsLetter(c: char)
  {
    'a' <= c <= 'z' || 'A' <= c <= 'Z' || c in "\U{130}\U{131}\U{17F}\U{212A}"
  }

  /** The character is w in either case, or one of four that IGNORECASE takes for a letter. */
  predicate SpellsChar(c: char, w: char)
  {
    || c == w || ('A' <= c <= 'Z' && w as int == c as int + 32)
    || (w == 'i' && c in "\U{130}\U{131}") || (w == 's' && c == '\U{17F}') || (w == 'k' && c == '\U{212A}')
  }

  predicate Spells(s: string, w: string)
  {
    |s| == |w| && forall i :: 0 <= i < |s| ==> SpellsChar(s[i], w[i])
  }

  predicate StandsAt(w: string, t: string, i: int)
  {
    0 <= i && i + |w| <= |t| && Spells(t[i..i + |w|], w)
  }

  /** A listed key, in any case, stands in the text. */
  ghost predicate HasKey(t: string)
  {
    exists w, i :: w in WORDS && StandsAt(w, t, i)
  }

  // ---- Characters ------------------------------------------------------------------

  lemma ClassesAre(c: char)
    ensures IsSep(c) <==> Separates(c)
    ensures IsVal(c) <==> !EndsValue(c)
    ensures IsTitle(c) <==> c == ' ' || IsLetter(c)
    ensures IsBase64(c) <==> IsLetter(c) || '0' <= c <= '9' || c == '+' || c == '/'
  {
    hide WHITESPACE;
    SpaceIs(c);
  }

  lemma FoldIs(c: char, w: char)
    requires 'a' <= w <= 'z' || w == '_'
    ensures Fold(c) == w <==> SpellsChar(c, w)
  {
  }

  lemma WordIs(w: string, t: string, i: nat)
    requires w in WORDS
    ensures IsKey(w) && (WordAt(w, t, i) <==> StandsAt(w, t, i))
  {
    forall x | 0 <= x < |w| ensures 'a' <= w[x] <= 'z' || w[x] == '_' {}
    if i + |w| <= |t| {
      forall x | 0 <= x < |w| ensures Fold(t[i + x]) == w[x] <==> SpellsChar(t[i..i + |w|][x], w[x]) {
        FoldIs(t[i + x], w[x]);
      }
      if WordAt(w, t, i) {
        forall x | 0 <= x < |w| ensures SpellsChar(t[i..i + |w|][x], w[x]) { assert Fold(t[i + x]) == w[x]; }
      }
      if StandsAt(w, t, i) {
        forall x | 0 <= x < |w| ensures Fold(t[i + x]) == w[x] { assert SpellsChar(t[i..i + |w|][x], w[x]); }
      }
    }
  }

  lemma KeysAreWords(w: string)
    ensures IsKey(w) <==> w in WORDS
    ensures Key(w) in PASSES <==> w in WORDS
  {
  }

  // A character of a key neither separates nor ends a value, and only itself spells it.
  lemma KeyCharIs(w: string, x: nat, c: char)
    requires w in WORDS && x < |w| && Fold(c) == w[x]
    ensures !Separates(c) && !EndsValue(c)
  {
    assert 'a' <= w[x] <= 'z' || w[x] == '_';
    hide WHITESPACE, WORDS;
    SpaceIs(c);
  }

  // ---- A pass over a text whose head it does not touch --------------------------------

  lemma {:induction false} NextEndShift(a: string, z: string, j: nat)
    requires j <= |z|
    ensures NextEnd(a + z, |a| + j) == |a| + NextEnd(z, j)
    decreases |z| - j
  {
    hide MarkLen;
    if j < |z| {
      RedactionFixed.MarkShift(END, a, z, j);
      NextEndShift(a, z, j + 1);
    }
  }

  lemma PemShifts(a: string, z: string, x: nat)
    requires x <= |z|
    ensures PemLen(a + z, |a| + x) == PemLen(z, x)
  {
    hide MarkLen, NextEnd;
    RedactionFixed.MarkShift(BEGIN, a, z, x);
    var j := x + MarkLen(BEGIN, z, x);
    NextEndShift(a, z, j);
    RedactionFixed.MarkShift(END, a, z, NextEnd(z, j));
  }

  lemma MatchShifts(p: Pass, a: string, z: string, x: nat)
    requires x <= |z|
    ensures MatchLen(p, a + z, |a| + x) == MatchLen(p, z, x)
  {
    match p
    case Key(w) => KeyShift(w, a, z, x);
    case Pem => PemShifts(a, z, x);
    case Base64 => RedactionFixed.Base64Shift(a, z, x);
  }

  lemma {:induction false} SubShifts(p: Pass, a: string, z: string, i: nat)
    requires i <= |z|
    ensures Sub(p, a + z, |a| + i) == Sub(p, z, i)
    decreases |z| - i
  {
    hide MatchLen, Replacement;
    if i < |z| {
      var n := MatchLen(p, z, i);
      MatchShifts(p, a, z, i);
      assert (a + z)[|a| + i..|a| + i + n] == z[i..i + n];
      SubShifts(p, a, z, if n == 0 then i + 1 else i + n);
    }
  }

  /** No match of the pass starts in the first n characters. */
  ghost predicate Untouched(p: Pass, t: string, n: nat)
    requires n <= |t|
  {
    forall x :: 0 <= x < n ==> MatchLen(p, t, x) == 0
  }

  lemma {:induction false} HeadStaysFrom(p: Pass, h: string, z: string, i: nat)
    requires Untouched(p, h + z, |h|) && i <= |h|
    ensures Sub(p, h + z, i) == h[i..] + Sub(p, z, 0)
    decreases |h| - i
  {
    hide MatchLen;
    if i < |h| {
      HeadStaysFrom(p, h, z, i + 1);
      assert MatchLen(p, h + z, i) == 0;
      hide Untouched;
      assert h[i..] == [h[i]] + h[i + 1..];
    } else {
      SubShifts(p, h, z, 0);
    }
  }

  lemma HeadStays(p: Pass, h: string, z: string)
    requires Untouched(p, h + z, |h|)
    ensures Sub(p, h + z, 0) == h + Sub(p, z, 0)
  {
    HeadStaysFrom(p, h, z, 0);
  }

  // ---- A masked key at the head --------------------------------------------------------

  lemma MaskUntouched(p: Pass, w: string, z: string)
    requires w in WORDS && p in PASSES && p != Key(w)
    ensures Untouched(p, w + MASK + z, |w + MASK|)
  {
    hide MatchLen, KeyLen, PemLen, Base64Len;
    var m, t := w + MASK, w + MASK + z;
    assert t[0..|m|] == m[0..];
    forall x | 0 <= x < |m| ensures MatchLen(p, t, x) == 0 {
      MatchIs(p, t, x);
      match p {
        case Key(k) =>
          KeyPasses(k);
          KeysAreWords(w);
          InertKeyMask(k, w, x);
          ReadsRest(t, 0, m, x);
          NoWord(k, m, x, t, x);
          NoKeyWithoutWord(k, t, x);
        case Pem =>
          assert t[x] == m[x];
          MaskHasNoDash(w, x);
          NoMark(t, x);
        case Base64 =>
          MaskIsShort(w, z, x);
      }
    }
  }

  lemma MatchIs(p: Pass, t: string, x: nat)
    requires x <= |t|
    ensures p.Key? ==> MatchLen(p, t, x) == KeyLen(p.word, t, x)
    ensures p.Pem? ==> MatchLen(p, t, x) == PemLen(t, x)
    ensures p.Base64? ==> MatchLen(p, t, x) == Base64Len(t, x)
  {
  }

  lemma MaskHasNoDash(w: string, x: nat)
    requires w in WORDS && x < |w + MASK|
    ensures (w + MASK)[x] != '-'
  {
  }

  lemma NoMark(t: string, x: nat)
    requires x < |t| && t[x] != '-'
    ensures MarkLen(BEGIN, t, x) == 0 && MarkLen(END, t, x) == 0 && PemLen(t, x) == 0
  {
    assert Fold(t[x + 0]) != BEGIN[0] && BEGIN[0] == END[0];
  }

  // A run of base64 characters that ends within forty is no match.
  lemma ShortRun(t: string, x: nat, e: nat)
    requires x <= e < |t| && e < x + 40 && !IsBase64(t[e])
    ensures Base64Len(t, x) == 0
  {
  }

  lemma MaskIsShort(w: string, z: string, x: nat)
    requires w in WORDS && x < |w + MASK|
    ensures Base64Len(w + MASK + z, x) == 0
  {
    var t := w + MASK + z;
    assert t[|w|] == '=' && t[|w| + |MASK| - 1] == ']';
    ShortRun(t, x, if x <= |w| then |w| else |w| + |MASK| - 1);
  }

  // ---- A key, separators and a value at the head -----------------------------------------

  /** The value is made of letters and digits and ends the text, or no key stands in it. */
  ghost predicate HoldsNoKey(v: string, z: string)
  {
    (z == "" && forall c :: c in v ==> 'a' <= c <= 'z' || 'A' <= c <= 'Z' || '0' <= c <= '9') || !HasKey(v)
  }

  /** A spelling of the key w, separators, and a value up to the end or a character that ends it. */
  ghost predicate IsEntry(w: string, u: string, sep: string, v: string, z: string)
  {
    && w in WORDS && Spells(u, w)
    && sep != "" && (forall c :: c in sep ==> Separates(c))
    && v != "" && !Separates(v[0]) && (forall c :: c in v ==> !EndsValue(c))
    && (z != "" ==> EndsValue(z[0])) && HoldsNoKey(v, z)
  }

  lemma SpelledIsWord(w: string, u: string, rest: string)
    requires w in WORDS && Spells(u, w)
    ensures WordAt(w, u + rest, 0) && forall x :: 0 <= x < |w| ==> Fold((u + rest)[x]) == w[x]
  {
    assert (u + rest)[0..0 + |w|] == u;
    WordIs(w, u + rest, 0);
    forall x | 0 <= x < |w| ensures Fold((u + rest)[x]) == w[x] { assert Fold((u + rest)[0 + x]) == w[x]; }
  }

  // Inside the spelling of a key no key stands but the key itself, at its start.
  lemma NoOtherKey(w: string, k: string, t: string, x: nat)
    requires w in WORDS && k in WORDS && |w| <= |t| && (forall y :: 0 <= y < |w| ==> Fold(t[y]) == w[y])
    requires x + |k| <= |w| && x < |w| && !(x == 0 && k == w)
    ensures !WordAt(k, t, x)
  {
    KeysAreWords(w);
    KeysAreWords(k);
    var y := InertHead(k, w, x);
    KeyFolds(w, x + y);
    assert Fold(t[x + y]) != k[y];
  }

  // A key stands on neither side of a separator or of the end of a value.
  lemma WordAvoids(k: string, t: string, x: nat, y: nat)
    requires k in WORDS && WordAt(k, t, x) && x <= y < x + |k|
    ensures !Separates(t[y]) && !EndsValue(t[y])
  {
    assert Fold(t[x + (y - x)]) == k[y - x];
    KeyCharIs(k, y - x, t[y]);
  }

  lemma OtherKeysMiss(w: string, u: string, sep: string, v: string, z: string, k: string, x: nat)
    requires IsEntry(w, u, sep, v, z) && k in WORDS && x < |u + sep + v| && !(x == 0 && k == w)
    ensures KeyLen(k, u + sep + v + z, x) == 0
  {
    hide WORDS, KeyLen, WordAt, Separates, EndsValue, Spells, HasKey;
    var t := u + sep + v + z;
    var a, b := |u|, |u + sep|;
    assert t == u + (sep + v + z);
    SpelledIsWord(w, u, sep + v + z);
    assert |u| == |w| by { SpelledLength(u, w); }
    KeysAreLong(k);
    if x + |k| <= a { NoOtherKey(w, k, t, x); }
    if !WordAt(k, t, x) {
      NoKeyWithoutWord(k, t, x);
    } else {
      assert t[a] == sep[0] && Separates(t[a]);
      if x <= a < x + |k| { WordAvoids(k, t, x, a); }
      KeyInValue(w, u, sep, v, z, k, x);
    }
  }

  lemma SpelledLength(u: string, w: string)
    requires Spells(u, w)
    ensures |u| == |w|
  {
  }

  lemma KeyInValue(w: string, u: string, sep: string, v: string, z: string, k: string, x: nat)
    requires IsEntry(w, u, sep, v, z) && k in WORDS && |u| < x < |u + sep + v|
    requires WordAt(k, u + sep + v + z, x)
    ensures KeyLen(k, u + sep + v + z, x) == 0
  {
    hide WORDS, KeyLen, WordAt, Separates, EndsValue, Spells, HasKey;
    var t := u + sep + v + z;
    var b, e := |u + sep|, |u + sep + v|;
    assert |k| > 0 by { KeysAreLong(k); }
    if x < b {
      assert t[x] == sep[x - |u|] && sep[x - |u|] in sep;
      WordAvoids(k, t, x, x);
    }
    if e < x + |k| && z != "" {
      assert t[e] == z[0];
      WordAvoids(k, t, x, e);
    }
    WordFits(k, t, x);
    assert x >= b && x + |k| <= e;
    assert t[x..x + |k|] == v[x - b..x - b + |k|];
    WordIs(k, t, x);
    assert HasKey(v) by { KeyStands(k, t, x, v, x - b); }
    if x + |k| < e {
      assert t[x + |k|] == v[x + |k| - b] && v[x + |k| - b] in v;
      LetterIsNoSep(t[x + |k|]);
      NoSepNoKey(k, t, x);
    } else {
      NoKeyAtTheEnd(k, t, x);
    }
  }

  lemma KeysAreLong(k: string)
    requires k in WORDS
    ensures 5 <= |k| <= 8
  {
  }

  lemma KeyStands(k: string, t: string, x: nat, v: string, y: nat)
    requires k in WORDS && StandsAt(k, t, x) && y + |k| <= |v| && t[x..x + |k|] == v[y..y + |k|]
    ensures HasKey(v)
  {
    assert StandsAt(k, v, y);
  }

  lemma LetterIsNoSep(c: char)
    requires 'a' <= c <= 'z' || 'A' <= c <= 'Z' || '0' <= c <= '9'
    ensures !IsSep(c)
  {
  }

  lemma NoKeyAtTheEnd(k: string, t: string, x: nat)
    requires x + |k| == |t|
    ensures KeyLen(k, t, x) == 0
  {
  }

  lemma OwnKeyMatches(w: string, u: string, sep: string, v: string, z: string)
    requires IsEntry(w, u, sep, v, z)
    ensures KeyLen(w, u + sep + v + z, 0) == |u + sep + v|
  {
    hide WORDS, KeyLen, WordAt, Separates, EndsValue, Spells, HasKey;
    var t := u + sep + v + z;
    var b, e := |u + sep|, |u + sep + v|;
    assert t == u + (sep + v + z);
    SpelledIsWord(w, u, sep + v + z);
    assert |u| == |w| by { SpelledLength(u, w); }
    forall x | 0 <= x < |t| ensures (IsSep(t[x]) <==> Separates(t[x])) && (IsVal(t[x]) <==> !EndsValue(t[x])) {
      ClassesAre(t[x]);
    }
    forall x | |u| <= x < b ensures IsSep(t[x]) { assert t[x] == sep[x - |u|] && sep[x - |u|] in sep; }
    forall x | b <= x < e ensures IsVal(t[x]) { assert t[x] == v[x - b] && v[x - b] in v; }
    assert t[b] == v[0];
    if z != "" { assert t[e] == z[0]; }
    hide IsSep, IsVal;
    assert IsLastSepVal(t, |u|, b);
    KeyMatchIs(w, t, 0, b, e);
  }

  lemma EntryUntouched(w: string, u: string, sep: string, v: string, z: string, k: string)
    requires IsEntry(w, u, sep, v, z) && k in WORDS && k != w
    ensures Untouched(Key(k), u + sep + v + z, |u + sep + v|)
  {
    hide KeyLen, IsEntry;
    forall x | 0 <= x < |u + sep + v| ensures MatchLen(Key(k), u + sep + v + z, x) == 0 {
      OtherKeysMiss(w, u, sep, v, z, k, x);
    }
  }

  /** The passes after the key's own leave the mask at the head alone. */
  lemma {:induction false} PassesAfter(passes: seq<Pass>, w: string, z: string)
    requires w in WORDS && forall p | p in passes :: p in PASSES && p != Key(w)
    ensures Apply(passes, w + MASK + z) == w + MASK + Apply(passes, z)
    decreases |passes|
  {
    hide Sub, Untouched;
    if passes != [] {
      MaskUntouched(passes[0], w, z);
      HeadStays(passes[0], w + MASK, z);
      PassesAfter(passes[1..], w, Sub(passes[0], z, 0));
    }
  }

  // A key's pass leaves a character that ends a value where it is.
  lemma StopStays(k: string, z: string)
    requires k in WORDS && z != "" && EndsValue(z[0])
    ensures Sub(Key(k), z, 0) != "" && Sub(Key(k), z, 0)[0] == z[0]
  {
    hide KeyLen;
    KeysAreWords(k);
    ClassesAre(z[0]);
    NoKeyAtStop(k, z, 0);
  }

  /** The passes before the key's own leave the entry alone, and its own masks it. */
  lemma {:induction false} PassesUntilOwn(passes: seq<Pass>, w: string, u: string, sep: string, v: string, z: string)
    requires IsEntry(w, u, sep, v, z) && Key(w) in passes
    requires forall p | p in passes :: p in PASSES
    requires forall i, j :: 0 <= i < j < |passes| ==> passes[i] != passes[j] && (passes[j].Key? ==> passes[i].Key?)
    ensures Apply(passes, u + sep + v + z) == w + MASK + Apply(passes, z)
    decreases |passes|
  {
    hide Sub, IsEntry, WORDS, PASSES;
    var p, t := passes[0], u + sep + v + z;
    if p == Key(w) {
      OwnPass(w, u, sep, v, z);
      PassesAfter(passes[1..], w, Sub(p, z, 0));
    } else {
      assert Key(w) in passes[1..];
      assert p.Key?;
      KeysAreWords(p.word);
      EntryUntouched(w, u, sep, v, z, p.word);
      HeadStays(p, u + sep + v, z);
      EntryStays(w, u, sep, v, z, p.word);
      PassesUntilOwn(passes[1..], w, u, sep, v, Sub(p, z, 0));
    }
  }

  lemma OwnPass(w: string, u: string, sep: string, v: string, z: string)
    requires IsEntry(w, u, sep, v, z)
    ensures w in WORDS && Sub(Key(w), u + sep + v + z, 0) == w + MASK + Sub(Key(w), z, 0)
  {
    var h := u + sep + v;
    assert h != "" && w in WORDS;
    OwnKeyMatches(w, u, sep, v, z);
    hide KeyLen, IsEntry, WORDS;
    assert Sub(Key(w), h + z, 0) == w + MASK + Sub(Key(w), h + z, |h|);
    SubShifts(Key(w), h, z, 0);
  }

  lemma EntryStays(w: string, u: string, sep: string, v: string, z: string, k: string)
    requires IsEntry(w, u, sep, v, z) && k in WORDS
    ensures IsEntry(w, u, sep, v, Sub(Key(k), z, 0))
  {
    hide HasKey;
    if z != "" { StopStays(k, z); }
  }

  /** A listed key in any case, separators, and a value up to its end are replaced by the key, an
      equals sign and the mask; the rest of the text is redacted as if it stood alone. */
  lemma EntryIsMasked(w: string, u: string, sep: string, v: string, z: string)
    requires w in WORDS && Spells(u, w)
    requires sep != "" && forall c :: c in sep ==> c in "\":=" || c in WHITESPACE
    requires v != "" && v[0] !in "\":=" && v[0] !in WHITESPACE
    requires forall c :: c in v ==> c !in ",\"{}" && c !in WHITESPACE
    requires z != "" ==> z[0] in ",\"{}" || z[0] in WHITESPACE
    requires HoldsNoKey(v, z)
    ensures Redact(u + sep + v + z) == w + "=[REDACTED]" + Redact(z)
  {
    hide Apply, HasKey;
    KeysAreWords(w);
    PassesUntilOwn(PASSES, w, u, sep, v, z);
  }

  // ---- Exactly which characters separate and end -----------------------------------------

  predicate AllDigits(s: string) { forall c :: c in s ==> '0' <= c <= '9' }

  lemma DigitIs(c: char)
    requires '0' <= c <= '9'
    ensures Fold(c) == c && !Separates(c) && !EndsValue(c)
  {
    hide WHITESPACE;
    SpaceIs(c);
  }

  // No key holds a digit.
  lemma WordHoldsNoDigit(k: string, t: string, x: nat, y: nat)
    requires k in WORDS && x <= y < x + |k| && y < |t| && '0' <= t[y] <= '9'
    ensures !WordAt(k, t, x)
  {
    DigitIs(t[y]);
    assert 'a' <= k[y - x] <= 'z' || k[y - x] == '_';
    assert Fold(t[x + (y - x)]) != k[y - x];
  }

  /** Digits around one character hold no key. */
  lemma DigitsHoldNoKey(a: string, c: char, b: string)
    requires AllDigits(a) && AllDigits(b)
    ensures !HasKey(a + [c] + b)
  {
    var t := a + [c] + b;
    forall w, i | w in WORDS ensures !StandsAt(w, t, i) {
      if 0 <= i && i + |w| <= |t| {
        KeysAreLong(w);
        var y := if i == |a| then i + 1 else i;
        assert '0' <= t[y] <= '9' by {
          if y < |a| {
            assert t[y] == a[y] && a[y] in a;
          } else {
            assert t[y] == b[y - |a| - 1] && b[y - |a| - 1] in b;
          }
        }
        WordHoldsNoDigit(w, t, i, y);
        WordIs(w, t, i);
      }
    }
  }

  // A text of fewer than forty characters with no key and less than two dashes.
  lemma ShortTextStays(t: string)
    requires |t| < 40 && forall x :: 0 <= x < |t| - 1 ==> t[x] != '-' || t[x + 1] != '-'
    requires forall k, x: nat :: k in WORDS && x <= |t| ==> KeyLen(k, t, x) == 0
    ensures Redact(t) == t
  {
    hide KeyLen, PemLen, Base64Len;
    forall x: nat | x <= |t| ensures PemLen(t, x) == 0 && Base64Len(t, x) <= 50 {
      OneDashIsNoMark(t, x);
      ShortIsNoRun(t, x);
    }
    forall p | p in PASSES ensures Clean(p, t, 0) {
      match p {
        case Key(w) => KeysAreWords(w);
        case Pem =>
        case Base64 =>
      }
    }
    hide Redact;
    RedactionFixed.UnchangedIff(t);
  }

  lemma OneDashIsNoMark(t: string, x: nat)
    requires x <= |t| && forall y :: 0 <= y < |t| - 1 ==> t[y] != '-' || t[y + 1] != '-'
    ensures PemLen(t, x) == 0
  {
    if x + 1 < |t| {
      assert Fold(t[x + 0]) != '-' || Fold(t[x + 1]) != '-';
      assert BEGIN[0] == '-' && BEGIN[1] == '-';
    }
  }

  lemma ShortIsNoRun(t: string, x: nat)
    requires x <= |t| < 40
    ensures Base64Len(t, x) == 0
  {
  }

  // Behind the spelling of a key and a character that does not separate, digits hold no match.
  lemma NoMatchUnseparated(w: string, u: string, c: char, v: string, k: string, x: nat)
    requires w in WORDS && Spells(u, w) && AllDigits(v) && !Separates(c)
    requires k in WORDS && x <= |u + [c] + v|
    ensures KeyLen(k, u + [c] + v, x) == 0
  {
    hide KeyLen, WORDS, Separates, Spells;
    var t, a := u + [c] + v, |u|;
    assert t == u + ([c] + v);
    SpelledIsWord(w, u, [c] + v);
    assert |u| == |w| by { SpelledLength(u, w); }
    KeysAreLong(k);
    ClassesAre(c);
    if x + |k| <= a {
      if x == 0 && k == w {
        NoSepNoKey(k, t, x);
      } else {
        NoOtherKey(w, k, t, x);
        NoKeyWithoutWord(k, t, x);
      }
    } else if x + |k| > a + 1 {
      forall y | a + 1 <= y < |t| ensures '0' <= t[y] <= '9' { assert t[y] == v[y - a - 1] && v[y - a - 1] in v; }
      NoWordPast(k, t, x, a + 1);
      NoKeyWithoutWord(k, t, x);
    } else {
      NoWordOver(w, k, t, x);
      NoKeyWithoutWord(k, t, x);
    }
  }

  // A key that ends among digits or behind the text is no key.
  lemma NoWordPast(k: string, t: string, x: nat, b: nat)
    requires k in WORDS && x <= |t| && b <= |t| && x + |k| > b && forall y :: b <= y < |t| ==> '0' <= t[y] <= '9'
    ensures !WordAt(k, t, x)
  {
    if x + |k| <= |t| { WordHoldsNoDigit(k, t, x, x + |k| - 1); }
  }

  // No key is the end of another key and one character more.
  lemma NoWordOver(w: string, k: string, t: string, x: nat)
    requires w in WORDS && k in WORDS && |w| < |t| && (forall y :: 0 <= y < |w| ==> Fold(t[y]) == w[y])
    requires x + |k| == |w| + 1
    ensures !WordAt(k, t, x)
  {
    KeysAreWords(w);
    KeysAreWords(k);
    KeysAreLong(k);
    var y := OverlapDiffers(w, k, x);
    assert Fold(t[x + y]) != k[y];
  }

  lemma OverlapDiffers(w: string, k: string, x: nat) returns (y: nat)
    requires w in WORDS && k in WORDS && x + |k| == |w| + 1
    ensures y < |k| && x + y < |w| && w[x + y] != k[y]
  {
    y := if w[x] != k[0] then 0 else 1;
  }

  lemma UnseparatedDashes(w: string, u: string, c: char, v: string)
    requires w in WORDS && Spells(u, w) && AllDigits(v)
    ensures var t := u + [c] + v;
      forall x :: 0 <= x < |t| - 1 ==> t[x] != '-' || t[x + 1] != '-'
  {
    var t := u + [c] + v;
    forall x | 0 <= x < |t| ensures x == |u| || t[x] != '-' {
      if x < |u| {
        assert SpellsChar(u[x], w[x]) && ('a' <= w[x] <= 'z' || w[x] == '_');
      } else if x > |u| {
        assert t[x] == v[x - |u| - 1] && v[x - |u| - 1] in v;
      }
    }
  }

  lemma NothingToRedact()
    ensures Redact("") == ""
  {
    hide KeyLen, Redact;
    forall k, x: nat | k in WORDS && x <= |""| ensures KeyLen(k, "", x) == 0 { NoKeyAtEmpty(k, x); }
    ShortTextStays("");
  }

  lemma NoKeyAtEmpty(k: string, x: nat)
    requires k in WORDS && x <= |""|
    ensures KeyLen(k, "", x) == 0
  {
    assert |k| > 0;
  }

  /** Behind a listed key, exactly a quote, a colon, an equals sign or whitespace makes what
      follows a secret. */
  lemma SeparatorIff(w: string, u: string, c: char, v: string)
    requires w in WORDS && Spells(u, w) && 0 < |v| <= 20 && AllDigits(v)
    ensures Redact(u + [c] + v) ==
      if c in "\":=" || c in WHITESPACE then w + "=[REDACTED]" else u + [c] + v
  {
    hide Redact, KeyLen, WORDS, Spells, WHITESPACE;
    assert v[0] in v;
    DigitIs(v[0]);
    forall x | x in v ensures !EndsValue(x) { DigitIs(x); }
    if Separates(c) {
      NothingToRedact();
      assert HoldsNoKey(v, "");
      EntryIsMasked(w, u, [c], v, "");
      assert u + [c] + v + "" == u + [c] + v && w + "=[REDACTED]" + "" == w + "=[REDACTED]";
    } else {
      forall k, x: nat | k in WORDS && x <= |u + [c] + v| ensures KeyLen(k, u + [c] + v, x) == 0 {
        NoMatchUnseparated(w, u, c, v, k, x);
      }
      UnseparatedDashes(w, u, c, v);
      SpelledLength(u, w);
      KeysAreLong(w);
      ShortTextStays(u + [c] + v);
    }
  }

  /** A value goes on until a comma, a quote, a brace or whitespace, and over anything else. */
  lemma ValueEndIff(w: string, u: string, v: string, c: char, d: string)
    requires w in WORDS && Spells(u, w) && v != "" && |v| + |d| <= 20 && AllDigits(v) && AllDigits(d)
    ensures Redact(u + ":" + v + [c] + d) ==
      w + "=[REDACTED]" + if c in ",\"{}" || c in WHITESPACE then [c] + d else ""
  {
    hide Redact, KeyLen, WORDS, Spells, WHITESPACE, HasKey;
    assert v[0] in v;
    DigitIs(v[0]);
    forall x | x in v ensures !EndsValue(x) { DigitIs(x); }
    forall x | x in d ensures !EndsValue(x) { DigitIs(x); }
    DigitsHoldNoKey(v, c, d);
    NoKeyInPart(v, c, d);
    if EndsValue(c) {
      EntryIsMasked(w, u, ":", v, [c] + d);
      assert u + ":" + v + ([c] + d) == u + ":" + v + [c] + d;
      DigitsStay(c, d);
    } else {
      var value := v + [c] + d;
      NothingToRedact();
      EntryIsMasked(w, u, ":", value, "");
      assert u + ":" + value + "" == u + ":" + v + [c] + d;
    }
  }

  lemma NoKeyInPart(v: string, c: char, d: string)
    requires !HasKey(v + [c] + d)
    ensures !HasKey(v)
  {
    var t := v + [c] + d;
    forall w, i | w in WORDS && StandsAt(w, v, i) ensures HasKey(t) {
      assert t[i..i + |w|] == v[i..i + |w|];
      assert StandsAt(w, t, i);
    }
  }

  lemma DigitsStay(c: char, d: string)
    requires AllDigits(d) && |d| <= 20
    ensures Redact([c] + d) == [c] + d
  {
    hide Redact, KeyLen;
    var t := [c] + d;
    forall x | 0 < x < |t| ensures '0' <= t[x] <= '9' { assert t[x] == d[x - 1] && d[x - 1] in d; }
    forall k, x: nat | k in WORDS && x <= |t| ensures KeyLen(k, t, x) == 0 {
      KeysAreLong(k);
      NoWordPast(k, t, x, 1);
      NoKeyWithoutWord(k, t, x);
    }
    ShortTextStays(t);
  }

  // ---- Private keys and long runs ------------------------------------------------------------

  lemma NoKeyLen(t: string, k: string, x: nat)
    requires !HasKey(t) && k in WORDS && x <= |t|
    ensures KeyLen(k, t, x) == 0
  {
    WordIs(k, t, x);
    NoKeyWithoutWord(k, t, x);
  }

  // Where no key stands, only the last two passes matter.
  lemma WithoutKeys(t: string)
    requires !HasKey(t)
    ensures Redact(t) == Sub(Base64, Sub(Pem, t, 0), 0)
  {
    hide Sub, HasKey, KeyLen, WORDS;
    forall w | w in WORDS ensures Sub(Key(w), t, 0) == t {
      forall x: nat | x <= |t| ensures KeyLen(w, t, x) == 0 { NoKeyLen(t, w, x); }
      RedactionFixed.CleanIdentity(Key(w), t);
    }
    KeyPassesFirst(t);
  }

  lemma KeyPassesFirst(t: string)
    requires forall w :: w in WORDS ==> Sub(Key(w), t, 0) == t
    ensures Redact(t) == Sub(Base64, Sub(Pem, t, 0), 0)
  {
    hide Sub;
    assert PASSES[1..][1..] == PASSES[2..] && PASSES[2..][1..] == PASSES[3..] && PASSES[3..][1..] == PASSES[4..];
    assert PASSES[4..][1..] == PASSES[5..] && PASSES[5..][1..] == PASSES[6..] && PASSES[6..][1..] == [];
    var s := Sub(Pem, t, 0);
    assert Apply(PASSES[6..], s) == Sub(Base64, s, 0);
    assert Apply(PASSES[5..], t) == Apply(PASSES[6..], s);
    assert Apply(PASSES[3..], t) == Apply(PASSES[5..], t);
    assert Apply(PASSES[1..], t) == Apply(PASSES[3..], t);
  }

  /** A title of a private key: letters and spaces, and at least one of them. */
  predicate IsKeyTitle(s: string) { s != "" && forall c :: c in s ==> c == ' ' || IsLetter(c) }

  function PemText(title: string, body: string, end: string): string
  {
    "-----BEGIN " + title + "-----" + body + "-----END " + end + "-----"
  }

  /** Neither title holds a dash, nor does the body, which starts on a line of its own. */
  predicate IsKeyText(title: string, body: string, end: string)
  {
    '-' !in title && '-' !in body && '-' !in end && body != "" && body[0] == '\n'
  }

  // Where the four groups of dashes of the text stand.
  lemma Dashes(title: string, body: string, end: string, x: nat)
    requires IsKeyText(title, body, end)
    ensures var t, a := PemText(title, body, end), 11 + |title|;
      var b, e := a + 5 + |body|, a + 14 + |body| + |end|;
      && |t| == e + 5
      && (x < |t| ==> (t[x] == '-' <==> x < 5 || a <= x < a + 5 || b <= x < b + 5 || e <= x))
      && t[5] == 'B' && t[a + 5] == '\n' && t[b + 5] == 'E'
  {
    var t, a := PemText(title, body, end), 11 + |title|;
    var b, e := a + 5 + |body|, a + 14 + |body| + |end|;
    if x < 11 {
    } else if x < a {
      assert t[x] == title[x - 11] && title[x - 11] in title;
    } else if a + 5 <= x < b {
      assert t[x] == body[x - a - 5] && body[x - a - 5] in body;
    } else if b + 9 <= x < e {
      assert t[x] == end[x - b - 9] && end[x - b - 9] in end;
    }
  }

  // A marker starts with five dashes and a letter, so at the start or at the last but one group.
  lemma MarkersStand(title: string, body: string, end: string, x: nat)
    requires IsKeyText(title, body, end)
    ensures var t, b := PemText(title, body, end), 16 + |title| + |body|;
      && (WordAt(BEGIN, t, x) ==> x == 0)
      && (WordAt(END, t, x) ==> x == b)
  {
    var t, a := PemText(title, body, end), 11 + |title|;
    var b := a + 5 + |body|;
    Dashes(title, body, end, x);
    Dashes(title, body, end, x + 1);
    Dashes(title, body, end, x + 4);
    Dashes(title, body, end, x + 5);
    hide PemText, IsKeyText;
    if x + 9 <= |t| {
      assert Fold(t[x + 0]) == '-' <==> t[x] == '-';
      assert Fold(t[x + 4]) == '-' <==> t[x + 4] == '-';
      assert Fold(t[x + 5]) == BEGIN[5] ==> t[x + 5] != '-' && t[x + 5] != '\n' && t[x + 5] != 'E';
      assert Fold(t[x + 5]) == END[5] ==> t[x + 5] != '-' && t[x + 5] != '\n' && t[x + 5] != 'B';
      assert WordAt(BEGIN, t, x) ==>
        Fold(t[x + 0]) == BEGIN[0] && Fold(t[x + 4]) == BEGIN[4] && Fold(t[x + 5]) == BEGIN[5];
      assert WordAt(END, t, x) ==>
        Fold(t[x + 0]) == END[0] && Fold(t[x + 4]) == END[4] && Fold(t[x + 5]) == END[5];
    }
  }

  // A title between a literal and five dashes makes a marker exactly when it is one of letters
  // and spaces.
  lemma TitleMark(lit: string, t: string, x: nat, title: string)
    requires WordAt(lit, t, x) && x + |lit| + |title| + 5 <= |t| && '-' !in title
    requires t[x + |lit|..x + |lit| + |title| + 5] == title + "-----"
    ensures MarkLen(lit, t, x) == if IsKeyTitle(title) then |lit| + |title| + 5 else 0
  {
    var i := x + |lit|;
    forall y | i <= y <= i + |title| ensures t[y] == (title + "-----")[y - i] {
      assert t[y] == t[i..i + |title| + 5][y - i];
    }
    if IsKeyTitle(title) {
      forall y | i <= y < i + |title| ensures IsTitle(t[y]) {
        assert title[y - i] in title;
        ClassesAre(t[y]);
      }
      assert t[i + |title|..i + |title| + 5] == "-----";
      DashesAreWord(t, i + |title|);
      MarkIs(lit, t, x, i + |title|);
    } else {
      NoTitle(t, i, title);
      NoMarkWithoutTitle(lit, t, x);
    }
  }

  lemma DashesAreWord(t: string, e: nat)
    requires e + 5 <= |t| && t[e..e + 5] == "-----"
    ensures WordAt("-----", t, e)
  {
    forall x | 0 <= x < 5 ensures Fold(t[e + x]) == "-----"[x] { assert t[e + x] == t[e..e + 5][x]; }
  }

  lemma NoTitle(t: string, i: nat, title: string)
    requires i + |title| < |t| && '-' !in title && !IsKeyTitle(title)
    requires forall y :: 0 <= y < |title| ==> t[i + y] == title[y]
    requires t[i + |title|] == '-'
    ensures var e := RunEnd(IsTitle, t, i); e == i || !WordAt("-----", t, e)
  {
    var e := RunEnd(IsTitle, t, i);
    if title != "" {
      var y :| 0 <= y < |title| && title[y] != ' ' && !IsLetter(title[y]);
      ClassesAre(title[y]);
      assert e <= i + y;
      assert t[e] == title[e - i] && title[e - i] in title;
      assert Fold(t[e + 0]) != "-----"[0];
    }
  }

  lemma NoMarkWithoutTitle(lit: string, t: string, x: nat)
    requires x + |lit| <= |t|
    requires var e := RunEnd(IsTitle, t, x + |lit|); e == x + |lit| || !WordAt("-----", t, e)
    ensures MarkLen(lit, t, x) == 0
  {
  }

  lemma KeyMarks(title: string, body: string, end: string)
    requires IsKeyText(title, body, end)
    ensures var t, b := PemText(title, body, end), 16 + |title| + |body|;
      && b < |t| && MarkLen(BEGIN, t, 0) == (if IsKeyTitle(title) then 16 + |title| else 0)
      && MarkLen(END, t, b) == (if IsKeyTitle(end) then |t| - b else 0)
  {
    var t, b := PemText(title, body, end), 16 + |title| + |body|;
    var front := "-----BEGIN " + title + "-----" + body;
    assert t == front + "-----END " + end + "-----" && |front| == b;
    assert t[0..11] == "-----BEGIN " && t[b..b + 9] == "-----END ";
    LiteralStands(BEGIN, "-----BEGIN ", t, 0);
    LiteralStands(END, "-----END ", t, b);
    assert t[11..16 + |title|] == title + "-----";
    assert t[b + 9..b + 14 + |end|] == end + "-----";
    hide IsKeyTitle;
    TitleMark(BEGIN, t, 0, title);
    TitleMark(END, t, b, end);
  }

  lemma LiteralStands(lit: string, upper: string, t: string, x: nat)
    requires (lit == BEGIN && upper == "-----BEGIN ") || (lit == END && upper == "-----END ")
    requires x + |lit| <= |t| && t[x..x + |lit|] == upper
    ensures WordAt(lit, t, x)
  {
    forall y | 0 <= y < |lit| ensures Fold(t[x + y]) == lit[y] { assert t[x + y] == t[x..x + |lit|][y]; }
  }

  // A text whose only begin marker can stand at 0 and whose only end marker at b.
  lemma MarkedText(t: string, b: nat)
    requires b < |t| && MarkLen(BEGIN, t, 0) <= b && (MarkLen(END, t, b) == |t| - b || MarkLen(END, t, b) == 0)
    requires forall x: nat | x <= |t| ::
      (MarkLen(BEGIN, t, x) > 0 ==> x == 0) && (MarkLen(END, t, x) > 0 ==> x == b)
    ensures Sub(Pem, t, 0) == if MarkLen(BEGIN, t, 0) > 0 && MarkLen(END, t, b) > 0 then PEM_MASK else t
  {
    hide MarkLen, PemLen, Sub;
    if MarkLen(BEGIN, t, 0) > 0 && MarkLen(END, t, b) > 0 {
      PemMatchIs(t, 0, b);
      WholeMatch(Pem, t);
    } else {
      forall x: nat | x <= |t| ensures PemLen(t, x) == 0 { UnclosedAt(t, x, b); }
      RedactionFixed.CleanIdentity(Pem, t);
    }
  }

  lemma KeyTextIff(title: string, body: string, end: string)
    requires IsKeyText(title, body, end)
    ensures var t := PemText(title, body, end);
      Sub(Pem, t, 0) == if IsKeyTitle(title) && IsKeyTitle(end) then PEM_MASK else t
  {
    hide *;
    var t, b := PemText(title, body, end), 16 + |title| + |body|;
    KeyMarks(title, body, end);
    forall x: nat | x <= |t| ensures (MarkLen(BEGIN, t, x) > 0 ==> x == 0) && (MarkLen(END, t, x) > 0 ==> x == b) {
      MarkersStand(title, body, end, x);
      NoMarkWithoutWord(BEGIN, t, x);
      NoMarkWithoutWord(END, t, x);
    }
    MarkedText(t, b);
  }

  lemma NoMarkWithoutWord(lit: string, t: string, x: nat)
    requires x <= |t|
    ensures MarkLen(lit, t, x) > 0 ==> WordAt(lit, t, x)
  {
  }

  /** A private key is replaced exactly when both of its titles are made of letters and spaces. */
  lemma PrivateKeyIff(title: string, body: string, end: string)
    requires IsKeyText(title, body, end)
    ensures var t := "-----BEGIN " + title + "-----" + body + "-----END " + end + "-----";
      Sub(Pem, t, 0) == if IsKeyTitle(title) && IsKeyTitle(end) then "[REDACTED_KEY]" else t
  {
    hide Sub;
    KeyTextIff(title, body, end);
  }

  lemma UnclosedAt(t: string, x: nat, b: nat)
    requires x <= |t| && b <= |t|
    requires forall y: nat | y <= |t| ::
      (MarkLen(BEGIN, t, y) > 0 ==> y == 0) && (MarkLen(END, t, y) > 0 ==> y == b)
    requires MarkLen(BEGIN, t, 0) == 0 || MarkLen(END, t, b) == 0
    ensures PemLen(t, x) == 0
  {
    hide MarkLen;
    RedactionFixed.PemIff(t, x);
  }

  lemma WholeMatch(p: Pass, t: string)
    requires t != "" && MatchLen(p, t, 0) == |t| && (p.Base64? ==> |t| > 50)
    ensures Sub(p, t, 0) == Mask(p)
  {
    hide MatchLen;
    assert t[0..|t|] == t;
    SubAtEnd(p, t);
    assert Sub(p, t, 0) == Replacement(p, t) + Sub(p, t, |t|);
  }

  /** So is it in the redaction as a whole, where no key stands in the text. */
  lemma PrivateKeyIsRedacted(title: string, body: string, end: string)
    requires IsKeyText(title, body, end) && IsKeyTitle(title) && IsKeyTitle(end)
    requires !HasKey("-----BEGIN " + title + "-----" + body + "-----END " + end + "-----")
    ensures Redact("-----BEGIN " + title + "-----" + body + "-----END " + end + "-----") == "[REDACTED_KEY]"
  {
    hide Sub, HasKey, IsKeyText, IsKeyTitle, Redact;
    WithoutKeys("-----BEGIN " + title + "-----" + body + "-----END " + end + "-----");
    PrivateKeyIff(title, body, end);
    forall x: nat | x <= |PEM_MASK| ensures Base64Len(PEM_MASK, x) <= 50 { ShortIsNoRun(PEM_MASK, x); }
    RedactionFixed.CleanIdentity(Base64, PEM_MASK);
  }

  predicate IsRun(s: string) { forall c :: c in s ==> IsLetter(c) || '0' <= c <= '9' || c in "+/" }

  /** A run of letters, digits, `+` and `/` with up to two equals signs behind it is replaced when
      it has forty characters and, with them, more than fifty. */
  lemma RunIff(s: string, pad: string)
    requires IsRun(s) && s != "" && pad in {"", "=", "=="}
    ensures Sub(Base64, s + pad, 0) == if |s| >= 40 && |s + pad| > 50 then "[REDACTED_BASE64]" else s + pad
  {
    var t := s + pad;
    forall x | 0 <= x < |s| ensures IsBase64(t[x]) {
      assert t[x] == s[x] && s[x] in s;
      ClassesAre(t[x]);
    }
    forall x | |s| <= x < |t| ensures IsPad(t[x]) && !IsBase64(t[x]) { assert t[x] == pad[x - |s|]; }
    Base64MatchIs(t, 0, |s|, |t|);
    if |s| >= 40 && |t| > 50 {
      WholeMatch(Base64, t);
    } else {
      hide Base64Len, IsBase64, IsPad;
      forall x: nat | x <= |t| ensures Base64Len(t, x) <= 50 { RunIsShort(t, |s|, x); }
      RedactionFixed.CleanIdentity(Base64, t);
    }
  }

  lemma RunIsShort(t: string, n: nat, x: nat)
    requires n <= |t| <= n + 2 && x <= |t| && (n < 40 || |t| <= 50)
    requires (forall y :: 0 <= y < n ==> IsBase64(t[y])) && forall y :: n <= y < |t| ==> !IsBase64(t[y])
    ensures Base64Len(t, x) <= 50
  {
    hide IsBase64;
    RunEndIs(IsBase64, t, x, if x < n then n else x);
  }

  /** So is it in the redaction as a whole, where no key stands in the text. */
  lemma RunIsRedactedIff(s: string, pad: string)
    requires IsRun(s) && s != "" && pad in {"", "=", "=="} && !HasKey(s + pad)
    ensures Redact(s + pad) == if |s| >= 40 && |s + pad| > 50 then "[REDACTED_BASE64]" else s + pad
  {
    var t := s + pad;
    forall x: nat | x <= |t| ensures PemLen(t, x) == 0 {
      if x < |t| {
        assert t[x] in s || t[x] == '=';
        NoMark(t, x);
      } else {
        RedactionFixed.NoPemAtEnd(t);
      }
    }
    hide Redact, Sub, HasKey, PemLen;
    WithoutKeys(t);
    RedactionFixed.CleanIdentity(Pem, t);
    RunIff(s, pad);
  }

  /** Two runs of less than forty characters are one long run exactly when the character between
      them is one that a run may hold. */
  lemma RunCharIff(a: string, c: char, b: string)
    requires IsRun(a) && IsRun(b) && |a| < 40 && |b| < 40 && |a| + |b| >= 50
    ensures Sub(Base64, a + [c] + b, 0) ==
      if IsLetter(c) || '0' <= c <= '9' || c in "+/" then "[REDACTED_BASE64]" else a + [c] + b
  {
    var t := a + [c] + b;
    if IsRun([c]) {
      assert c in [c];
      assert t + "" == t;
      RunIff(t, "");
    } else {
      ClassesAre(c);
      hide Base64Len, IsBase64;
      forall x: nat | x <= |t| ensures Base64Len(t, x) <= 50 {
        if x <= |a| { ShortRun(t, x, |a|); } else { TailRun(t, x); }
      }
      RedactionFixed.CleanIdentity(Base64, t);
    }
  }

  lemma TailRun(t: string, x: nat)
    requires x <= |t| < x + 40
    ensures Base64Len(t, x) == 0
  {
  }

  // ---- What stays behind ---------------------------------------------------------------------

  /** In the output, a listed key in any case that separators and a value follow reads exactly the
      key, an equals sign and the mask, and the value ends there. */
  lemma OutputIsMasked(input: string, w: string, i: nat, j: nat)
    requires w in WORDS && i + |w| < j < |Redact(input)|
    requires var out := Redact(input);
      && Spells(out[i..i + |w|], w)
      && (forall x :: i + |w| <= x < j ==> out[x] in "\":=" || out[x] in WHITESPACE)
      && out[j] !in ",\"{}" && out[j] !in WHITESPACE
    ensures var out, e := Redact(input), i + |w| + |"=[REDACTED]"|;
      && e <= |out| && out[i..e] == w + "=[REDACTED]"
      && (e < |out| ==> out[e] in ",\"{}" || out[e] in WHITESPACE)
  {
    var out := Redact(input);
    KeysAreWords(w);
    WordIs(w, out, i);
    forall x | i + |w| <= x < j ensures IsSep(out[x]) { ClassesAre(out[x]); }
    ClassesAre(out[j]);
    assert SepVal(out, i + |w|, j);
    RedactionFixed.KeysAreMasked(input, w);
    hide Redact;
    assert Masked(w, out, i);
    var e := i + |w| + |MASK|;
    if e < |out| { ClassesAre(out[e]); }
  }
}
