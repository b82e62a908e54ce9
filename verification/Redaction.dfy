/** Secrets removed from text before it is sent to an AI provider
    (backend/app/services/ai/prompts.py:110-127): seven regular expressions,
    applied one after the other, ignoring case and letting `.` match newlines.
    Positions are indices into the whole text, so a match is named by where it
    starts and how long it is. */
module Redaction {
  import opened Text

  /** One of the seven patterns with its replacement. */
  datatype Pass = Key(word: string) | Pem | Base64

  const MASK := "=[REDACTED]"
  const PEM_MASK := "[REDACTED_KEY]"
  const BASE64_MASK := "[REDACTED_BASE64]"

  predicate IsKey(k: string)
  {
    k == "password" || k == "passwd" || k == "secret" || k == "api_key" || k == "token"
  }

  // The list the loop walks, in order.
  const PASSES: seq<Pass> :=
    [Key("password"), Key("passwd"), Key("secret"), Key("api_key"), Key("token"), Pem, Base64]

  // ---- Characters ----------------------------------------------------------

  /** Case folding as IGNORECASE sees the ASCII letters: four letters outside
      ASCII also match one of them. */
  function Fold(c: char): char
  {
    if 'A' <= c <= 'Z' then (c as int + 32) as char
    else if c == '\U{130}' || c == '\U{131}' then 'i'
    else if c == '\U{17F}' then 's'
    else if c == '\U{212A}' then 'k'
    else c
  }

  // ["\s:=]
  predicate IsSep(c: char) { c == '"' || c == ':' || c == '=' || IsSpace(c) }

  // [^\s,"\n}{]
  predicate IsVal(c: char) { !IsSpace(c) && c != ',' && c != '"' && c != '}' && c != '{' }

  // [A-Z ]
  predicate IsTitle(c: char) { c == ' ' || 'a' <= Fold(c) <= 'z' }

  // [A-Za-z0-9+/]
  predicate IsBase64(c: char) { 'a' <= Fold(c) <= 'z' || '0' <= c <= '9' || c == '+' || c == '/' }

  predicate IsPad(c: char) { c == '=' }

  // ---- Matching ------------------------------------------------------------

  /** Where the longest run of characters in the class, starting at i, ends. */
  function RunEnd(f: char -> bool, t: string, i: nat): (e: nat)
    requires i <= |t|
    ensures i <= e <= |t|
    ensures forall x :: i <= x < e ==> f(t[x])
    ensures e < |t| ==> !f(t[e])
    decreases |t| - i
  {
    if i < |t| && f(t[i]) then RunEnd(f, t, i + 1) else i
  }

  /** The literal w, already folded, stands at position i. */
  predicate WordAt(w: string, t: string, i: nat)
  {
    i + |w| <= |t| && forall x :: 0 <= x < |w| ==> Fold(t[i + x]) == w[x]
  }

  /** The last position after `lo`, up to `hi`, that holds a value character;
      `lo` when there is none. Backtracking tries them from the right. */
  function LastValue(t: string, lo: nat, hi: nat): (v: nat)
    requires lo <= hi <= |t|
    ensures lo <= v <= hi
    ensures v != lo ==> v < |t| && IsVal(t[v])
    ensures forall x :: v < x <= hi && x < |t| ==> !IsVal(t[x])
    decreases hi
  {
    if hi == lo then lo
    else if hi < |t| && IsVal(t[hi]) then hi
    else LastValue(t, lo, hi - 1)
  }

  /** Length of the match of word["\s:=]+[^\s,"\n}{]+ at i, or 0. */
  function KeyLen(w: string, t: string, i: nat): (n: nat)
    requires i <= |t|
    ensures i + n <= |t|
    ensures n > 0 ==> WordAt(w, t, i) && n >= |w| + 2
  {
    if !WordAt(w, t, i) then 0
    else
      var v := LastValue(t, i + |w|, RunEnd(IsSep, t, i + |w|));
      if v == i + |w| then 0 else RunEnd(IsVal, t, v) - i
  }

  /** Length of the match of `lit`[A-Z ]+----- at i, or 0. */
  function MarkLen(lit: string, t: string, i: nat): (n: nat)
    requires i <= |t|
    ensures i + n <= |t|
  {
    if !WordAt(lit, t, i) then 0
    else
      var e := RunEnd(IsTitle, t, i + |lit|);
      if e > i + |lit| && WordAt("-----", t, e) then e + 5 - i else 0
  }

  const BEGIN := "-----begin "
  const END := "-----end "

  /** The first position from j on where an end marker starts, or |t|. */
  function NextEnd(t: string, j: nat): (k: nat)
    requires j <= |t|
    ensures j <= k <= |t|
    ensures k < |t| ==> MarkLen(END, t, k) > 0
    ensures forall x :: j <= x < k ==> MarkLen(END, t, x) == 0
    decreases |t| - j
  {
    hide MarkLen;
    if j == |t| || MarkLen(END, t, j) > 0 then j else NextEnd(t, j + 1)
  }

  function PemLen(t: string, i: nat): (n: nat)
    requires i <= |t|
    ensures i + n <= |t|
    ensures n > 0 ==> MarkLen(BEGIN, t, i) > 0
  {
    var b := MarkLen(BEGIN, t, i);
    if b == 0 then 0
    else
      var k := NextEnd(t, i + b);
      if k == |t| then 0 else k + MarkLen(END, t, k) - i
  }

  function Min(a: nat, b: nat): nat { if a < b then a else b }

  function Base64Len(t: string, i: nat): (n: nat)
    requires i <= |t|
    ensures i + n <= |t|
    ensures n > 0 ==> n >= 40 && forall x :: i <= x < i + 40 ==> IsBase64(t[x])
  {
    var e := RunEnd(IsBase64, t, i);
    if e - i < 40 then 0 else e - i + Min(2, RunEnd(IsPad, t, e) - e)
  }

  function MatchLen(p: Pass, t: string, i: nat): (n: nat)
    requires i <= |t|
    ensures i + n <= |t|
  {
    match p
    case Key(w) => KeyLen(w, t, i)
    case Pem => PemLen(t, i)
    case Base64 => Base64Len(t, i)
  }

  // What a match is replaced by; a base64 run of at most 50 characters is kept.
  function Replacement(p: Pass, m: string): string
  {
    match p
    case Key(w) => w + MASK
    case Pem => PEM_MASK
    case Base64 => if |m| > 50 then BASE64_MASK else m
  }

  /** Substitution of every leftmost non-overlapping match from i on. */
  function Sub(p: Pass, t: string, i: nat): string
    requires i <= |t|
    decreases |t| - i
  {
    if i == |t| then []
    else
      var n := MatchLen(p, t, i);
      if n == 0 then [t[i]] + Sub(p, t, i + 1)
      else Replacement(p, t[i..i + n]) + Sub(p, t, i + n)
  }

  function Apply(passes: seq<Pass>, t: string): string
    decreases |passes|
  {
    if passes == [] then t else Apply(passes[1..], Sub(passes[0], t, 0))
  }

  function Redact(t: string): string { Apply(PASSES, t) }

  method RedactSensitiveData(input: string) returns (text: string)
    ensures text == Redact(input)
  {
    text := input;
    for k := 0 to |PASSES|
      invariant Apply(PASSES[k..], text) == Redact(input)
    {
      text := Sub(PASSES[k], text, 0);
      assert PASSES[k..][1..] == PASSES[k + 1..];
    }
  }

  // ---- What the patterns match, without the matcher -------------------------

  /** Separators from j up to k, and a value character at k. */
  predicate SepVal(t: string, j: nat, k: nat)
  {
    j < k < |t| && IsVal(t[k]) && forall x :: j <= x < k ==> IsSep(t[x])
  }

  ghost predicate HasSepVal(t: string, j: nat)
  {
    exists k: nat :: SepVal(t, j, k)
  }

  lemma KeyMatches(w: string, t: string, i: nat)
    requires i <= |t|
    ensures KeyLen(w, t, i) > 0 <==> WordAt(w, t, i) && HasSepVal(t, i + |w|)
  {
    if WordAt(w, t, i) {
      var j := i + |w|;
      var e := RunEnd(IsSep, t, j);
      var v := LastValue(t, j, e);
      if v > j { assert SepVal(t, j, v); }
      forall k: nat | SepVal(t, j, k) ensures v > j { assert k <= e; }
    }
  }

  ghost predicate IsLastSepVal(t: string, j: nat, k: nat)
  {
    SepVal(t, j, k) && forall x: nat :: SepVal(t, j, x) ==> x <= k
  }

  /** Where a key's match ends: the value starts at the last value character the separators
      allow, and takes every value character that follows. */
  lemma KeyMatchIs(w: string, t: string, i: nat, k: nat, e: nat)
    requires i <= |t| && WordAt(w, t, i) && IsLastSepVal(t, i + |w|, k)
    requires k <= e <= |t| && (forall x :: k <= x < e ==> IsVal(t[x])) && (e < |t| ==> !IsVal(t[e]))
    ensures KeyLen(w, t, i) == e - i
  {
    hide IsVal, IsSep;
    var j := i + |w|;
    var v := LastValue(t, j, RunEnd(IsSep, t, j));
    assert k <= RunEnd(IsSep, t, j) by { SeparatorsReach(t, j, k); }
    assert k <= v;
    assert SepVal(t, j, v);
    RunEndIs(IsVal, t, k, e);
  }

  lemma SeparatorsReach(t: string, j: nat, k: nat)
    requires SepVal(t, j, k)
    ensures j <= |t| && k <= RunEnd(IsSep, t, j)
  {
  }

  /** A marker is its literal, at least one capital letter or space, and five dashes. */
  lemma MarkIs(lit: string, t: string, i: nat, e: nat)
    requires i <= |t| && WordAt(lit, t, i) && i + |lit| < e <= |t| && WordAt("-----", t, e)
    requires forall x :: i + |lit| <= x < e ==> IsTitle(t[x])
    ensures MarkLen(lit, t, i) == e + 5 - i
  {
    assert Fold(t[e + 0]) == "-----"[0];
    RunEndIs(IsTitle, t, i + |lit|, e);
  }

  /** A private key reaches from its begin marker to the end of the first end marker behind it. */
  lemma PemMatchIs(t: string, i: nat, k: nat)
    requires i <= |t| && MarkLen(BEGIN, t, i) > 0 && i + MarkLen(BEGIN, t, i) <= k < |t| && MarkLen(END, t, k) > 0
    requires forall x :: i + MarkLen(BEGIN, t, i) <= x < k ==> MarkLen(END, t, x) == 0
    ensures PemLen(t, i) == k + MarkLen(END, t, k) - i
  {
    hide MarkLen;
  }

  /** A base64 match is the whole run from i to e, if it has forty characters, and up to two
      equals signs behind it. */
  lemma Base64MatchIs(t: string, i: nat, e: nat, p: nat)
    requires i <= e <= p <= |t| && p <= e + 2
    requires (forall x :: i <= x < e ==> IsBase64(t[x])) && (e < |t| ==> !IsBase64(t[e]))
    requires (forall x :: e <= x < p ==> IsPad(t[x])) && (p < |t| && p < e + 2 ==> !IsPad(t[p]))
    ensures Base64Len(t, i) == if e - i < 40 then 0 else p - i
  {
    hide IsBase64;
    RunEndIs(IsBase64, t, i, e);
    if p < e + 2 {
      RunEndIs(IsPad, t, e, p);
    } else {
      assert RunEnd(IsPad, t, e) >= p;
    }
  }

  /** The redacted form: the key in lower case, the mask, and then the end of
      the text or a character that cannot belong to a value. */
  predicate Masked(w: string, t: string, i: nat)
  {
    var e := i + |w| + |MASK|;
    e <= |t| && t[i..e] == w + MASK && (e < |t| ==> !IsVal(t[e]))
  }

  ghost predicate KeyClean(w: string, t: string, from: nat)
  {
    forall i: nat | from <= i <= |t| && KeyLen(w, t, i) > 0 :: Masked(w, t, i)
  }

  ghost predicate PemClean(t: string, from: nat)
  {
    forall i: nat | from <= i <= |t| :: PemLen(t, i) == 0
  }

  ghost predicate Base64Clean(t: string, from: nat)
  {
    forall i: nat | from <= i <= |t| :: Base64Len(t, i) <= 50
  }

  ghost predicate Clean(p: Pass, t: string, from: nat)
  {
    match p
    case Key(w) => KeyClean(w, t, from)
    case Pem => PemClean(t, from)
    case Base64 => Base64Clean(t, from)
  }

  /** Nothing is left to redact. */
  ghost predicate Redacted(t: string)
  {
    forall p | p in PASSES :: Clean(p, t, 0)
  }

  // ---- Splitting a substitution at the first match it changes -----------------

  /** Length of the match at i when the pass replaces it, else 0. */
  function Hit(p: Pass, t: string, i: nat): (n: nat)
    requires i <= |t|
    ensures i + n <= |t|
  {
    var n := MatchLen(p, t, i);
    if p.Base64? && n <= 50 then 0 else n
  }

  function FirstHit(p: Pass, t: string, i: nat): (m: nat)
    requires i <= |t|
    ensures i <= m <= |t|
    ensures m < |t| ==> Hit(p, t, m) > 0
    ensures forall x :: i <= x < m ==> Hit(p, t, x) == 0
    decreases |t| - i
  {
    hide Hit;
    if i == |t| || Hit(p, t, i) > 0 then i else FirstHit(p, t, i + 1)
  }

  /** The text a changed match becomes. */
  function Mask(p: Pass): string
  {
    match p
    case Key(w) => w + MASK
    case Pem => PEM_MASK
    case Base64 => BASE64_MASK
  }

  lemma RunEndIs(f: char -> bool, t: string, i: nat, e: nat)
    requires i <= e <= |t|
    requires forall x :: i <= x < e ==> f(t[x])
    requires e < |t| ==> !f(t[e])
    ensures RunEnd(f, t, i) == e
    decreases e - i
  {
    if i < e { RunEndIs(f, t, i + 1, e); }
  }

  /** No match that starts inside a base64 match is longer than it. */
  lemma ShorterInside(t: string, i: nat, x: nat)
    requires i <= |t| && i <= x < i + Base64Len(t, i)
    ensures Base64Len(t, x) <= Base64Len(t, i)
  {
    var e := RunEnd(IsBase64, t, i);
    if x < e {
      RunEndIs(IsBase64, t, x, e);
    } else {
      assert IsPad(t[x]);
      RunEndIs(IsBase64, t, x, x);
    }
  }

  lemma {:induction false} FirstHitFrom(p: Pass, t: string, i: nat, j: nat)
    requires i <= j <= |t|
    requires forall x :: i <= x < j ==> Hit(p, t, x) == 0
    ensures FirstHit(p, t, i) == FirstHit(p, t, j)
    decreases j - i
  {
    if i < j { FirstHitFrom(p, t, i + 1, j); }
  }

  lemma KeptInside(p: Pass, t: string, i: nat, x: nat)
    requires i <= |t| && Hit(p, t, i) == 0 && i <= x < i + MatchLen(p, t, i)
    ensures Hit(p, t, x) == 0
  {
    hide Base64Len, KeyLen, PemLen;
    ShorterInside(t, i, x);
  }

  /** A scan step that changes nothing skips no position where the pass hits. */
  lemma KeptStep(p: Pass, t: string, i: nat) returns (j: nat)
    requires i < |t| && Hit(p, t, i) == 0
    ensures i < j <= |t| && Sub(p, t, i) == t[i..j] + Sub(p, t, j)
    ensures FirstHit(p, t, i) == FirstHit(p, t, j)
  {
    hide Base64Len, KeyLen, PemLen, FirstHit;
    var n := MatchLen(p, t, i);
    j := if n == 0 then i + 1 else i + n;
    KeptText(p, t, i);
    hide Hit, Replacement;
    forall x | i <= x < j ensures Hit(p, t, x) == 0 {
      if n > 0 { KeptInside(p, t, i, x); }
    }
    FirstHitFrom(p, t, i, j);
  }

  lemma KeptText(p: Pass, t: string, i: nat)
    requires i < |t| && Hit(p, t, i) == 0
    ensures var n := MatchLen(p, t, i);
            if n == 0 then t[i..i + 1] == [t[i]] else Replacement(p, t[i..i + n]) == t[i..i + n]
  {
    hide Base64Len, KeyLen, PemLen, MatchLen;
  }

  lemma SubAtHit(p: Pass, t: string, i: nat)
    requires i < |t| && Hit(p, t, i) > 0
    ensures Sub(p, t, i) == Mask(p) + Sub(p, t, i + Hit(p, t, i))
  {
    hide Base64Len, KeyLen, PemLen;
    var m := t[i..i + MatchLen(p, t, i)];
    assert p.Base64? ==> |m| > 50;
    assert Replacement(p, m) == Mask(p);
  }

  lemma Whole(t: string, i: nat)
    requires i <= |t|
    ensures t[..i] + t[i..] == t && t[i..|t|] + [] == t[i..]
  {
  }

  lemma SubAtEnd(p: Pass, t: string)
    ensures Sub(p, t, |t|) == []
  {
  }

  lemma {:induction false} SubSplits(p: Pass, t: string, i: nat)
    requires i <= |t|
    ensures var m := FirstHit(p, t, i);
            Sub(p, t, i) == t[i..m] + if m == |t| then [] else Mask(p) + Sub(p, t, m + Hit(p, t, m))
    decreases |t| - i
  {
    hide Base64Len, KeyLen, PemLen, MatchLen, Sub, Hit, Mask;
    var m := FirstHit(p, t, i);
    if i == |t| {
      SubAtEnd(p, t);
    } else if Hit(p, t, i) == 0 {
      hide FirstHit;
      var j := KeptStep(p, t, i);
      SubSplits(p, t, j);
      assert t[i..m] == t[i..j] + t[j..m];
    } else {
      SubAtHit(p, t, i);
      assert t[i..m] == [];
    }
  }
}
