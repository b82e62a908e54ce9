/** What the redaction leaves behind: every pass clears its own pattern, no later
    pass brings an earlier one back, and a second redaction changes nothing. */
module RedactionKeeps {
  import opened Redaction

  // ---- The masks hold no secret themselves -----------------------------------

  ghost predicate Differs(w: string, m: string, d: nat)
  {
    exists x | 0 <= x < |w| && d + x < |m| :: Fold(m[d + x]) != w[x]
  }

  lemma InertTail(w: string, d: nat)
    requires IsKey(w) && d < |MASK|
    ensures Differs(w, MASK, d)
  {
    if Fold(MASK[d]) != w[0] {
      assert Fold(MASK[d + 0]) != w[0];
    } else {
      assert Fold(MASK[d + 1]) != w[1];
    }
  }

  // Where the key w and the text of the key v from d on, followed by `=`, differ.
  lemma InertHead(w: string, v: string, d: nat) returns (x: nat)
    requires IsKey(w) && IsKey(v) && d < |v| && !(d == 0 && w == v)
    ensures x < |w| && d + x <= |v| && w[x] != if d + x < |v| then Fold(v[d + x]) else '='
  {
    if Fold(v[d]) != w[0] {
      x := 0;
    } else if d + 1 == |v| || Fold(v[d + 1]) != w[1] {
      x := 1;
    } else {
      x := 5;
    }
  }

  lemma InertKeyMask(w: string, v: string, d: nat)
    requires IsKey(w) && IsKey(v) && d < |v| + |MASK|
    ensures Differs(w, v + MASK, d) || (d == 0 && w == v)
  {
    hide IsKey;
    var m := v + MASK;
    if d >= |v| {
      InertTail(w, d - |v|);
      var x :| 0 <= x < |w| && d - |v| + x < |MASK| && Fold(MASK[d - |v| + x]) != w[x];
      assert Fold(m[d + x]) != w[x];
    } else if !(d == 0 && w == v) {
      var x := InertHead(w, v, d);
      assert Fold(m[d + x]) != w[x];
    }
  }

  lemma InertTokenMask(w: string, m: string, d: nat)
    requires IsKey(w) && (m == PEM_MASK || m == BASE64_MASK) && d < |m|
    ensures Differs(w, m, d)
  {
    if Fold(m[d]) != w[0] {
      assert Fold(m[d + 0]) != w[0];
    } else {
      assert Fold(m[d + 1]) != w[1] || Fold(m[d + 2]) != w[2];
    }
  }

  /** No key starts inside the mask a pass writes, except that pass's own. */
  lemma InertMask(w: string, p: Pass, d: nat)
    requires IsKey(w) && p in PASSES && d < |Mask(p)|
    ensures Differs(w, Mask(p), d) || (d == 0 && p == Key(w))
  {
    hide Differs;
    match p
    case Key(v) => InertKeyMask(w, v, d);
    case _ => InertTokenMask(w, Mask(p), d);
  }

  // A match starts with a value character that is neither a separator nor a bracket.
  lemma HitChar(p: Pass, t: string, m: nat)
    requires m < |t| && p in PASSES && Hit(p, t, m) > 0
    ensures IsVal(t[m]) && !IsSep(t[m]) && t[m] != '['
  {
    match p
    case Key(w) =>
      assert Fold(t[m + 0]) == w[0];
    case Pem =>
      assert Fold(t[m + 0]) == BEGIN[0];
    case Base64 =>
  }

  lemma KeyChars(w: string, x: nat)
    requires IsKey(w) && x < |w|
    ensures w[x] != '[' && w[x] != ']' && w[x] != '=' && IsVal(w[x]) && !IsSep(w[x])
  {
  }

  // ---- Keys -------------------------------------------------------------------

  // t reads like the mask m from offset d on, at position i.
  predicate Reads(t: string, i: nat, m: string, d: nat)
  {
    d <= |m| && i + (|m| - d) <= |t| && t[i..i + (|m| - d)] == m[d..]
  }

  lemma ReadsChar(t: string, i: nat, m: string, d: nat, x: nat)
    requires Reads(t, i, m, d) && d + x < |m|
    ensures t[i + x] == m[d + x]
  {
    assert t[i..i + (|m| - d)][x] == m[d..][x];
  }

  lemma NoWord(w: string, m: string, d: nat, t: string, i: nat)
    requires Differs(w, m, d) && Reads(t, i, m, d)
    ensures !WordAt(w, t, i)
  {
    var x :| 0 <= x < |w| && d + x < |m| && Fold(m[d + x]) != w[x];
    ReadsChar(t, i, m, d, x);
  }

  lemma NoSepNoKey(w: string, t: string, i: nat)
    requires i + |w| < |t| && !IsSep(t[i + |w|])
    ensures KeyLen(w, t, i) == 0
  {
  }

  // No pass hits inside the mask that follows a key.
  lemma NoHitInMask(p: Pass, t: string, i: nat, d: nat)
    requires p in PASSES && d < |MASK| && Reads(t, i, MASK, d)
    ensures Hit(p, t, i) == 0
  {
    match p
    case Key(v) =>
      InertTail(v, d);
      NoWord(v, MASK, d, t, i);
    case Pem =>
      ReadsChar(t, i, MASK, d, 0);
      MaskChar(d);
      assert Fold(t[i + 0]) != BEGIN[0];
    case Base64 =>
      ReadsChar(t, i, MASK, d, 10 - d);
      assert RunEnd(IsBase64, t, i) <= i + (10 - d);
  }

  lemma MaskChar(d: nat)
    requires d < |MASK|
    ensures Fold(MASK[d]) != '-'
  {
  }

  lemma MaskedTail(w: string, t: string, y: nat, d: nat)
    requires Masked(w, t, y) && d <= |MASK|
    ensures Reads(t, y + |w| + d, MASK, d)
  {
    hide IsVal;
    var e := y + |w| + |MASK|;
    assert t[y + |w| + d..e] == t[y..e][|w| + d..] == MASK[d..];
  }

  // A masked key ends before the next match of any pass starts.
  lemma MaskGap(w: string, p: Pass, t: string, y: nat, m: nat)
    requires p in PASSES && Masked(w, t, y)
    requires y + |w| <= m < |t| && Hit(p, t, m) > 0
    ensures m > y + |w| + |MASK|
  {
    hide Hit, Reads, IsVal, IsSep;
    HitChar(p, t, m);
    var d := m - (y + |w|);
    if d < |MASK| {
      MaskedTail(w, t, y, d);
      NoHitInMask(p, t, m, d);
    }
  }

  // Where the end of the key w differs from the start of the key v and `=`.
  lemma Overlap(w: string, v: string, c: nat) returns (y: nat)
    requires IsKey(w) && IsKey(v) && 0 < c < |w| && |w| - c >= |v|
    ensures y < |w| - c && y <= |v| && w[c + y] != if y < |v| then v[y] else '='
  {
    if |w| - c > |v| {
      y := |v|;
      KeyChars(w, c + y);
    } else if w[|w| - 1] != v[|v| - 1] {
      y := |v| - 1;
    } else {
      y := |v| - 2;
    }
  }

  // No key runs from the text before a mask into the mask.
  lemma NoStraddle(w: string, p: Pass, s: string, x: nat, b: nat)
    requires IsKey(w) && p in PASSES && Reads(s, b, Mask(p), 0) && x < b < x + |w|
    ensures KeyLen(w, s, x) == 0
  {
    hide IsKey, KeyLen;
    match p
    case Key(v) =>
      KeyPasses(v);
      NoStraddleKey(w, v, s, x, b);
    case _ =>
      KeyChars(w, b - x);
      ReadsChar(s, b, Mask(p), 0, 0);
      assert Fold(s[x + (b - x)]) == '[' != w[b - x];
      NoKeyWithoutWord(w, s, x);
  }

  lemma NoStraddleKey(w: string, v: string, s: string, x: nat, b: nat)
    requires IsKey(w) && IsKey(v) && Reads(s, b, v + MASK, 0) && x < b < x + |w|
    ensures KeyLen(w, s, x) == 0
  {
    hide IsKey, KeyLen, IsSep;
    var m := v + MASK;
    var c := b - x;
    if |w| - c >= |v| {
      var y := Overlap(w, v, c);
      ReadsChar(s, b, m, 0, y);
      if y < |v| { KeyFolds(v, y); }
      assert Fold(s[x + (c + y)]) != w[c + y];
      NoKeyWithoutWord(w, s, x);
    } else {
      KeyChars(v, |w| - c);
      ReadsChar(s, b, m, 0, |w| - c);
      NoSepNoKey(w, s, x);
    }
  }

  lemma KeyPasses(v: string)
    requires Key(v) in PASSES
    ensures IsKey(v)
  {
  }

  lemma KeyFolds(v: string, y: nat)
    requires IsKey(v) && y < |v|
    ensures Fold(v[y]) == v[y]
  {
  }

  // s starts with the b characters of t from i on.
  predicate Starts(s: string, b: nat, t: string, i: nat)
  {
    b <= |s| && i + b <= |t| && s[..b] == t[i..i + b]
  }

  lemma StartsChar(s: string, b: nat, t: string, i: nat, y: nat)
    requires Starts(s, b, t, i) && y < b
    ensures s[y] == t[i + y]
  {
    assert s[..b][y] == t[i..i + b][y];
  }

  lemma StartsSlice(s: string, b: nat, t: string, i: nat, x: nat, y: nat)
    requires Starts(s, b, t, i) && x <= y <= b
    ensures s[x..y] == t[i + x..i + y]
  {
    forall z | 0 <= z < y - x ensures s[x..y][z] == t[i + x..i + y][z] {
      StartsChar(s, b, t, i, x + z);
    }
  }

  lemma StartsWord(w: string, s: string, x: nat, b: nat, t: string, i: nat)
    requires Starts(s, b, t, i) && x + |w| <= b && WordAt(w, s, x)
    ensures WordAt(w, t, i + x)
  {
    forall y | 0 <= y < |w| ensures Fold(t[i + x + y]) == w[y] {
      StartsChar(s, b, t, i, x + y);
      assert Fold(s[x + y]) == w[y];
    }
  }

  lemma StartsSepVal(s: string, j: nat, k: nat, b: nat, t: string, i: nat)
    requires Starts(s, b, t, i) && j <= b < |s| && i + b < |t| && SepVal(s, j, k)
    requires !IsSep(s[b]) && IsVal(t[i + b])
    ensures SepVal(t, i + j, i + k)
  {
    assert k <= b;
    if k < b { StartsChar(s, b, t, i, k); }
    forall y | i + j <= y < i + k ensures IsSep(t[y]) {
      StartsChar(s, b, t, i, y - i);
      assert IsSep(s[y - i]);
    }
  }

  // Two texts that agree up to a value character which is no separator have the
  // same key matches before it.
  lemma SameKey(w: string, s: string, x: nat, b: nat, t: string, i: nat)
    requires x + |w| <= b < |s| && i + b < |t| && Starts(s, b, t, i)
    requires !IsSep(s[b]) && IsVal(t[i + b])
    ensures KeyLen(w, s, x) > 0 ==> KeyLen(w, t, i + x) > 0
  {
    hide KeyLen, IsSep, IsVal, WordAt, SepVal;
    KeyMatches(w, s, x);
    KeyMatches(w, t, i + x);
    if KeyLen(w, s, x) > 0 {
      StartsWord(w, s, x, b, t, i);
      var k: nat :| SepVal(s, x + |w|, k);
      StartsSepVal(s, x + |w|, k, b, t, i);
      assert i + (x + |w|) == i + x + |w|;
    }
  }

  lemma SameMask(w: string, s: string, x: nat, b: nat, t: string, i: nat)
    requires x + |w| + |MASK| < b && Starts(s, b, t, i) && Masked(w, t, i + x)
    ensures Masked(w, s, x)
  {
    var e := x + |w| + |MASK|;
    StartsSlice(s, b, t, i, x, e);
    StartsChar(s, b, t, i, e);
  }

  lemma MaskHead(p: Pass)
    requires p in PASSES
    ensures !IsSep(Mask(p)[0])
  {
  }

  // A match before the mask was a match before the substitution.
  lemma BeforeMask(w: string, p: Pass, t: string, i: nat, m: nat, s: string, x: nat)
    requires IsKey(w) && p in PASSES && i <= m < |t| && Hit(p, t, m) > 0 && x < m - i
    requires Reads(s, m - i, Mask(p), 0) && Starts(s, m - i, t, i)
    requires KeyLen(w, t, i + x) > 0 ==> Masked(w, t, i + x)
    ensures KeyLen(w, s, x) > 0 ==> Masked(w, s, x)
  {
    hide IsKey, Hit, KeyLen, Masked, Starts, WordAt;
    var b := m - i;
    if b < x + |w| {
      NoStraddle(w, p, s, x, b);
    } else {
      HitChar(p, t, m);
      ReadsChar(s, b, Mask(p), 0, 0);
      MaskHead(p);
      SameKey(w, s, x, b, t, i);
      if KeyLen(w, s, x) > 0 {
        MaskGap(w, p, t, i + x, m);
        SameMask(w, s, x, b, t, i);
      }
    }
  }

  // A match inside the mask is the mask itself.
  lemma InMask(w: string, p: Pass, s: string, b: nat, d: nat)
    requires IsKey(w) && p in PASSES && Reads(s, b, Mask(p), 0) && d < |Mask(p)|
    requires p == Key(w) && b + |Mask(p)| < |s| ==> !IsVal(s[b + |Mask(p)|])
    ensures KeyLen(w, s, b + d) > 0 ==> Masked(w, s, b + d)
  {
    hide IsKey, IsVal, KeyLen, Differs, Mask;
    InertMask(w, p, d);
    if Differs(w, Mask(p), d) {
      ReadsRest(s, b, Mask(p), d);
      NoWord(w, Mask(p), d, s, b + d);
      NoKeyWithoutWord(w, s, b + d);
    } else {
      MaskedByKey(w, s, b);
    }
  }

  lemma ReadsRest(s: string, b: nat, m: string, d: nat)
    requires Reads(s, b, m, 0) && d <= |m|
    ensures Reads(s, b + d, m, d)
  {
    assert s[b + d..b + |m|] == s[b..b + |m|][d..];
  }

  lemma NoKeyWithoutWord(w: string, t: string, i: nat)
    requires i <= |t| && !WordAt(w, t, i)
    ensures KeyLen(w, t, i) == 0
  {
  }

  lemma MaskedByKey(w: string, s: string, b: nat)
    requires Reads(s, b, Mask(Key(w)), 0)
    requires b + |Mask(Key(w))| < |s| ==> !IsVal(s[b + |Mask(Key(w))|])
    ensures Masked(w, s, b)
  {
  }

  // ---- Matches after the mask: texts with a common tail -------------------------

  lemma RunShift(f: char -> bool, a: string, z: string, x: nat)
    requires x <= |z|
    ensures RunEnd(f, a + z, |a| + x) == |a| + RunEnd(f, z, x)
  {
    var e := RunEnd(f, z, x);
    forall y | |a| + x <= y < |a| + e ensures f((a + z)[y]) { assert f(z[y - |a|]); }
    RunEndIs(f, a + z, |a| + x, |a| + e);
  }

  lemma WordShift(w: string, a: string, z: string, x: nat)
    ensures WordAt(w, a + z, |a| + x) <==> WordAt(w, z, x)
  {
    assert forall y {:trigger w[y]} :: 0 <= y < |w| && x + y < |z| ==> (a + z)[|a| + x + y] == z[x + y];
  }

  lemma {:induction false} LastValueShift(a: string, z: string, lo: nat, hi: nat)
    requires lo <= hi <= |z|
    ensures LastValue(a + z, |a| + lo, |a| + hi) == |a| + LastValue(z, lo, hi)
    decreases hi
  {
    if lo < hi { LastValueShift(a, z, lo, hi - 1); }
  }

  lemma KeyShift(w: string, a: string, z: string, x: nat)
    requires x <= |z|
    ensures KeyLen(w, a + z, |a| + x) == KeyLen(w, z, x)
  {
    hide RunEnd, LastValue, WordAt;
    WordShift(w, a, z, x);
    if WordAt(w, z, x) {
      assert x + |w| <= |z| by { WordFits(w, z, x); }
      RunShift(IsSep, a, z, x + |w|);
      LastValueShift(a, z, x + |w|, RunEnd(IsSep, z, x + |w|));
      RunShift(IsVal, a, z, LastValue(z, x + |w|, RunEnd(IsSep, z, x + |w|)));
    }
  }

  lemma WordFits(w: string, t: string, i: nat)
    requires WordAt(w, t, i)
    ensures i + |w| <= |t|
  {
  }

  lemma MaskShift(w: string, a: string, z: string, x: nat)
    ensures Masked(w, a + z, |a| + x) <==> Masked(w, z, x)
  {
    var e := x + |w| + |MASK|;
    if e <= |z| { assert (a + z)[|a| + x..|a| + e] == z[x..e]; }
  }

  // ---- A pass and the keys ------------------------------------------------------

  lemma NoKeyAtStop(w: string, t: string, k: nat)
    requires IsKey(w) && k < |t| && !IsVal(t[k])
    ensures KeyLen(w, t, k) == 0
  {
    hide KeyLen;
    assert Fold(t[k + 0]) != w[0];
    NoKeyWithoutWord(w, t, k);
  }

  lemma KeyStops(w: string, t: string, m: nat)
    requires m <= |t| && KeyLen(w, t, m) > 0 && m + KeyLen(w, t, m) < |t|
    ensures !IsVal(t[m + KeyLen(w, t, m)])
  {
  }

  // What stands right after a key match stops its value, and stays.
  lemma AfterKeyHit(w: string, t: string, m: nat)
    requires IsKey(w) && m <= |t| && KeyLen(w, t, m) > 0
    ensures var z := Sub(Key(w), t, m + KeyLen(w, t, m)); z == [] || !IsVal(z[0])
  {
    hide IsKey, KeyLen, IsVal;
    var k := m + KeyLen(w, t, m);
    if k < |t| {
      KeyStops(w, t, m);
      NoKeyAtStop(w, t, k);
    }
  }

  lemma NoKeyBeforeHit(w: string, t: string, i: nat)
    requires i <= |t|
    ensures forall y | i <= y < FirstHit(Key(w), t, i) :: KeyLen(w, t, y) == 0
    ensures var m := FirstHit(Key(w), t, i);
      m < |t| ==> Hit(Key(w), t, m) == KeyLen(w, t, m)
  {
    hide KeyLen, FirstHit;
    assert forall y | i <= y < FirstHit(Key(w), t, i) :: Hit(Key(w), t, y) == KeyLen(w, t, y);
  }

  lemma KeyParts(w: string, p: Pass, t: string, i: nat, z: string)
    requires IsKey(w) && p in PASSES && i <= |t| && FirstHit(p, t, i) < |t|
    requires p == Key(w) || KeyClean(w, t, i)
    requires var m := FirstHit(p, t, i); z == Sub(p, t, m + Hit(p, t, m)) && KeyClean(w, z, 0)
    ensures var m := FirstHit(p, t, i); KeyClean(w, t[i..m] + (Mask(p) + z), 0)
  {
    hide IsKey, IsVal, Hit, KeyLen, Masked, Mask, Sub, FirstHit;
    var m := FirstHit(p, t, i);
    if p == Key(w) {
      NoKeyBeforeHit(w, t, i);
      AfterKeyHit(w, t, m);
    }
    var b, s := m - i, t[i..m] + (Mask(p) + z);
    var c := b + |Mask(p)|;
    assert s == (t[i..m] + Mask(p)) + z;
    assert s[..b] == t[i..m] && s[b..c] == Mask(p);
    forall x: nat | x <= |s| && KeyLen(w, s, x) > 0 ensures Masked(w, s, x) {
      if x < b {
        BeforeMask(w, p, t, i, m, s, x);
      } else if x < c {
        InMask(w, p, s, b, x - b);
      } else {
        KeyShift(w, t[i..m] + Mask(p), z, x - c);
        MaskShift(w, t[i..m] + Mask(p), z, x - c);
      }
    }
  }

  lemma KeyRest(w: string, t: string, i: nat)
    requires i <= |t| && KeyClean(w, t, i)
    ensures KeyClean(w, t[i..], 0)
  {
    hide KeyLen, Masked;
    var a, s := t[..i], t[i..];
    assert t == a + s;
    forall x: nat | x <= |s| && KeyLen(w, s, x) > 0 ensures Masked(w, s, x) {
      KeyShift(w, a, s, x);
      MaskShift(w, a, s, x);
    }
  }

  // The text itself when nothing is hit.
  lemma KeyNoHit(w: string, p: Pass, t: string, i: nat)
    requires IsKey(w) && i <= |t| && FirstHit(p, t, i) == |t|
    requires p == Key(w) || KeyClean(w, t, i)
    ensures KeyClean(w, t[i..], 0)
  {
    hide IsKey, KeyLen, Masked;
    if p == Key(w) {
      NoKeyBeforeHit(w, t, i);
      NoKeyAtEnd(w, t);
    }
    KeyRest(w, t, i);
  }

  lemma KeyLater(w: string, t: string, i: nat, k: nat)
    requires i <= k && KeyClean(w, t, i)
    ensures KeyClean(w, t, k)
  {
  }

  /** Every pass keeps the keys masked, and a key's own pass masks all of them. */
  lemma {:induction false} KeyAfter(w: string, p: Pass, t: string, i: nat)
    requires IsKey(w) && p in PASSES && i <= |t|
    requires p == Key(w) || KeyClean(w, t, i)
    ensures KeyClean(w, Sub(p, t, i), 0)
    decreases |t| - i
  {
    hide IsKey, KeyLen, Masked, Sub, KeyClean, Hit, FirstHit;
    SubSplits(p, t, i);
    var m := FirstHit(p, t, i);
    if m == |t| {
      KeyNoHit(w, p, t, i);
      Whole(t, i);
    } else {
      var k := m + Hit(p, t, m);
      if p != Key(w) { KeyLater(w, t, i, k); }
      KeyAfter(w, p, t, k);
      KeyParts(w, p, t, i, Sub(p, t, k));
    }
  }

  lemma NoKeyAtEnd(w: string, t: string)
    requires IsKey(w)
    ensures KeyLen(w, t, |t|) == 0
  {
  }
}
