/** The two last passes, and the redaction as a whole: its output holds nothing a
    pass would change, so redacting it again returns it unchanged. */
module RedactionFixed {
  import opened Redaction
  import opened RedactionKeeps

  // ---- Markers of a private key ---------------------------------------------------

  predicate IsMark(lit: string) { lit == BEGIN || lit == END }

  // A marker holds no bracket.
  lemma MarkChars(lit: string, t: string, x: nat, y: nat)
    requires IsMark(lit) && x <= |t| && x <= y < x + MarkLen(lit, t, x)
    ensures t[y] != '[' && t[y] != ']' && t[x] == '-'
  {
    var e := RunEnd(IsTitle, t, x + |lit|);
    assert Fold(t[x + 0]) == lit[0];
    if y < x + |lit| {
      assert Fold(t[x + (y - x)]) == lit[y - x];
    } else if y < e {
      assert IsTitle(t[y]);
    } else {
      assert Fold(t[e + (y - e)]) == "-----"[y - e];
    }
  }

  // A marker that s shares with t is a marker there.
  lemma MarkStarts(lit: string, s: string, x: nat, b: nat, t: string, i: nat)
    requires IsMark(lit) && x <= |s| && MarkLen(lit, s, x) > 0
    requires Starts(s, b, t, i) && x + MarkLen(lit, s, x) <= b
    ensures MarkLen(lit, t, i + x) == MarkLen(lit, s, x)
  {
    hide RunEnd, WordAt;
    var e := RunEnd(IsTitle, s, x + |lit|);
    StartsWord(lit, s, x, b, t, i);
    StartsWord("-----", s, e, b, t, i);
    forall y | i + x + |lit| <= y < i + e ensures IsTitle(t[y]) {
      StartsChar(s, b, t, i, y - i);
      assert IsTitle(s[y - i]);
    }
    DashAt(t, i + e);
    RunEndIs(IsTitle, t, i + x + |lit|, i + e);
  }

  lemma DashAt(t: string, e: nat)
    requires WordAt("-----", t, e)
    ensures e + 5 <= |t| && !IsTitle(t[e])
  {
    assert Fold(t[e + 0]) == "-----"[0];
  }

  lemma MarkShift(lit: string, a: string, z: string, x: nat)
    requires x <= |z|
    ensures MarkLen(lit, a + z, |a| + x) == MarkLen(lit, z, x)
  {
    hide RunEnd, WordAt;
    WordShift(lit, a, z, x);
    if WordAt(lit, z, x) {
      WordFits(lit, z, x);
      RunShift(IsTitle, a, z, x + |lit|);
      WordShift("-----", a, z, RunEnd(IsTitle, z, x + |lit|));
    }
  }

  // No marker starts in a mask or runs into one.
  lemma MarkAvoidsMask(lit: string, m: string, s: string, x: nat, b: nat)
    requires IsMark(lit) && (m == PEM_MASK || m == BASE64_MASK) && Reads(s, b, m, 0)
    requires x < b + |m| && MarkLen(lit, s, x) > 0
    ensures x + MarkLen(lit, s, x) <= b
  {
    hide MarkLen;
    if x < b < x + MarkLen(lit, s, x) {
      ReadsChar(s, b, m, 0, 0);
      MarkChars(lit, s, x, b);
    } else if b <= x {
      ReadsChar(s, b, m, 0, x - b);
      MarkChars(lit, s, x, x);
    }
  }

  ghost predicate HasEnd(t: string, j: nat)
  {
    exists k: nat | j <= k <= |t| :: MarkLen(END, t, k) > 0
  }

  lemma PemIff(t: string, i: nat)
    requires i <= |t|
    ensures PemLen(t, i) > 0 <==> MarkLen(BEGIN, t, i) > 0 && HasEnd(t, i + MarkLen(BEGIN, t, i))
  {
    hide RunEnd, WordAt;
    assert MarkLen(END, t, |t|) == 0;
  }

  // ---- The private-key pass ---------------------------------------------------------

  lemma EndShift(a: string, z: string, j: nat)
    requires j <= |z|
    ensures HasEnd(a + z, |a| + j) <==> HasEnd(z, j)
  {
    hide MarkLen;
    forall k: nat | j <= k <= |z| ensures MarkLen(END, a + z, |a| + k) == MarkLen(END, z, k) {
      MarkShift(END, a, z, k);
    }
    if HasEnd(a + z, |a| + j) {
      var k: nat :| |a| + j <= k <= |a + z| && MarkLen(END, a + z, k) > 0;
      assert MarkLen(END, z, k - |a|) > 0;
    }
  }

  lemma PemShift(a: string, z: string, x: nat)
    requires x <= |z|
    ensures PemLen(a + z, |a| + x) > 0 <==> PemLen(z, x) > 0
  {
    hide MarkLen, PemLen, HasEnd;
    PemIff(a + z, |a| + x);
    PemIff(z, x);
    MarkShift(BEGIN, a, z, x);
    EndShift(a, z, x + MarkLen(BEGIN, z, x));
  }

  // An end marker from position j on was there already, before or after the mask.
  lemma EndBack(t: string, i: nat, b: nat, m: string, z: string, j: nat)
    requires (m == PEM_MASK || m == BASE64_MASK) && i + b <= |t| && j <= b
    requires HasEnd(t[i..i + b] + (m + z), j)
    ensures HasEnd(t, i + j) || HasEnd(z, 0)
  {
    hide MarkLen;
    var s := t[i..i + b] + (m + z);
    assert s == (t[i..i + b] + m) + z;
    assert s[..b] == t[i..i + b] && s[b..b + |m|] == m;
    var k: nat :| j <= k <= |s| && MarkLen(END, s, k) > 0;
    if k < b + |m| {
      MarkAvoidsMask(END, m, s, k, b);
      MarkStarts(END, s, k, b, t, i);
      assert MarkLen(END, t, i + k) > 0;
    } else {
      MarkShift(END, t[i..i + b] + m, z, k - b - |m|);
      assert MarkLen(END, z, k - b - |m|) > 0;
    }
  }

  lemma EndLater(t: string, j: nat, k: nat)
    requires j <= k && HasEnd(t, k)
    ensures HasEnd(t, j)
  {
  }

  /** Redacting base64 runs brings up no end marker. */
  lemma {:induction false} EndKept(t: string, i: nat)
    requires i <= |t| && HasEnd(Sub(Base64, t, i), 0)
    ensures HasEnd(t, i)
    decreases |t| - i
  {
    hide HasEnd, Sub, Hit, FirstHit;
    SubSplits(Base64, t, i);
    var m := FirstHit(Base64, t, i);
    if m == |t| {
      Whole(t, i);
      EndShift(t[..i], t[i..], 0);
    } else {
      var k := m + Hit(Base64, t, m);
      EndBack(t, i, m - i, BASE64_MASK, Sub(Base64, t, k), 0);
      if HasEnd(Sub(Base64, t, k), 0) {
        EndKept(t, k);
      }
      if HasEnd(t, k) { EndLater(t, i, k); }
    }
  }

  // A key opened before the mask was closed in t already: by the match itself,
  // or by an end marker that the base64 pass left in place.
  lemma PemBefore(p: Pass, t: string, i: nat, z: string, x: nat)
    requires (p == Pem || p == Base64) && i <= |t| && FirstHit(p, t, i) < |t|
    requires p == Pem || PemClean(t, i)
    requires var m := FirstHit(p, t, i); z == Sub(p, t, m + Hit(p, t, m))
    requires x < FirstHit(p, t, i) - i + |Mask(p)|
    ensures var m := FirstHit(p, t, i); PemLen(t[i..m] + (Mask(p) + z), x) == 0
  {
    hide MarkLen, PemLen, Base64Len, FirstHit, HasEnd, Sub;
    var m := FirstHit(p, t, i);
    var b, s := m - i, t[i..m] + (Mask(p) + z);
    assert s[..b] == t[i..m] && s[b..b + |Mask(p)|] == Mask(p);
    var l := MarkLen(BEGIN, s, x);
    PemIff(s, x);
    if l > 0 && HasEnd(s, x + l) {
      MarkAvoidsMask(BEGIN, Mask(p), s, x, b);
      MarkStarts(BEGIN, s, x, b, t, i);
      PemIff(t, i + x);
      EndBack(t, i, b, Mask(p), z, x + l);
      assert Hit(p, t, i + x) == 0;
      PemClosed(p, t, i, x + l, z);
    }
  }

  lemma PemClosed(p: Pass, t: string, i: nat, j: nat, z: string)
    requires (p == Pem || p == Base64) && i <= |t| && FirstHit(p, t, i) < |t|
    requires var m := FirstHit(p, t, i); z == Sub(p, t, m + Hit(p, t, m)) && i + j <= m
    requires p == Base64 ==> HasEnd(t, i + j) || HasEnd(z, 0)
    ensures HasEnd(t, i + j)
  {
    hide MarkLen, PemLen, Base64Len, FirstHit, HasEnd, Sub;
    var m := FirstHit(p, t, i);
    if p == Pem {
      PemIff(t, m);
      EndLater(t, i + j, m + MarkLen(BEGIN, t, m));
    } else if HasEnd(z, 0) {
      EndKept(t, m + Hit(p, t, m));
      EndLater(t, i + j, m + Hit(p, t, m));
    }
  }

  lemma PemRest(t: string, i: nat)
    requires i <= |t| && PemClean(t, i)
    ensures PemClean(t[i..], 0)
  {
    hide PemLen;
    assert t == t[..i] + t[i..];
    forall x: nat | x <= |t| - i ensures PemLen(t[i..], x) == 0 {
      PemShift(t[..i], t[i..], x);
    }
  }

  lemma NoPemAtEnd(t: string)
    ensures PemLen(t, |t|) == 0
  {
    assert |BEGIN| > 0;
  }

  /** The private-key pass leaves no private key, and the base64 pass brings none
      back. */
  lemma {:induction false} PemAfter(p: Pass, t: string, i: nat)
    requires (p == Pem || p == Base64) && i <= |t|
    requires p == Pem || PemClean(t, i)
    ensures PemClean(Sub(p, t, i), 0)
    decreases |t| - i
  {
    hide PemLen, Base64Len, Sub, FirstHit;
    SubSplits(p, t, i);
    var m := FirstHit(p, t, i);
    if m == |t| {
      if p == Pem {
        forall x | i <= x < m ensures PemLen(t, x) == 0 { assert Hit(p, t, x) == 0; }
        NoPemAtEnd(t);
      }
      PemRest(t, i);
      Whole(t, i);
    } else {
      var k := m + Hit(p, t, m);
      var z := Sub(p, t, k);
      PemAfter(p, t, k);
      var a := t[i..m] + Mask(p);
      assert t[i..m] + (Mask(p) + z) == a + z;
      forall x: nat | x <= |a + z| ensures PemLen(a + z, x) == 0 {
        if x < |a| {
          PemBefore(p, t, i, z, x);
        } else {
          PemShift(a, z, x - |a|);
        }
      }
    }
  }

  // ---- The base64 pass ------------------------------------------------------------

  lemma Base64Shift(a: string, z: string, x: nat)
    requires x <= |z|
    ensures Base64Len(a + z, |a| + x) == Base64Len(z, x)
  {
    RunShift(IsBase64, a, z, x);
    RunShift(IsPad, a, z, RunEnd(IsBase64, z, x));
  }

  lemma Base64HitChar(t: string, m: nat)
    requires m < |t| && Hit(Base64, t, m) > 0
    ensures IsBase64(t[m])
  {
  }

  // A run that ends before a mask is no longer than the run it was cut from.
  lemma Base64Before(t: string, i: nat, m: nat, s: string, x: nat)
    requires i <= m < |t| && Hit(Base64, t, m) > 0 && x < m - i < |s|
    requires Starts(s, m - i, t, i) && s[m - i] == '['
    ensures Base64Len(s, x) <= Base64Len(t, i + x)
  {
    hide RunEnd, Hit, Starts;
    var b := m - i;
    var e := RunEnd(IsBase64, s, x);
    assert IsBase64(t[m]) by { Base64HitChar(t, m); }
    assert e <= b;
    forall y | i + x <= y < i + e ensures IsBase64(t[y]) {
      StartsChar(s, b, t, i, y - i);
      assert IsBase64(s[y - i]);
    }
    if e < b {
      StartsChar(s, b, t, i, e);
      RunEndIs(IsBase64, t, i + x, i + e);
      var f := RunEnd(IsPad, s, e);
      assert f <= b;
      forall y | i + e <= y < i + f ensures IsPad(t[y]) {
        StartsChar(s, b, t, i, y - i);
        assert IsPad(s[y - i]);
      }
      assert RunEnd(IsPad, t, i + e) >= i + f;
    } else {
      assert RunEnd(IsPad, s, e) == e;
      assert RunEnd(IsBase64, t, i + x) >= i + e;
    }
  }

  lemma Base64InMask(s: string, b: nat, d: nat)
    requires Reads(s, b, BASE64_MASK, 0) && d < |BASE64_MASK|
    ensures Base64Len(s, b + d) == 0
  {
    ReadsChar(s, b, BASE64_MASK, 0, 16);
    assert RunEnd(IsBase64, s, b + d) <= b + 16;
  }

  /** The base64 pass leaves no run of more than fifty characters. */
  lemma {:induction false} Base64After(t: string, i: nat)
    requires i <= |t|
    ensures Base64Clean(Sub(Base64, t, i), 0)
    decreases |t| - i
  {
    hide Base64Len, Sub, FirstHit, IsBase64;
    SubSplits(Base64, t, i);
    var m := FirstHit(Base64, t, i);
    if m == |t| {
      Whole(t, i);
      forall x: nat | x <= |t| - i ensures Base64Len(t[i..], x) <= 50 {
        Base64Shift(t[..i], t[i..], x);
        if i + x < |t| { assert Hit(Base64, t, i + x) == 0; }
      }
    } else {
      var k := m + Hit(Base64, t, m);
      var z := Sub(Base64, t, k);
      Base64After(t, k);
      var a := t[i..m] + BASE64_MASK;
      var s := a + z;
      assert t[i..m] + (BASE64_MASK + z) == s;
      assert s[..m - i] == t[i..m] && s[m - i..|a|] == BASE64_MASK;
      forall x: nat | x <= |s| ensures Base64Len(s, x) <= 50 {
        if x < m - i {
          Base64Before(t, i, m, s, x);
          assert Hit(Base64, t, i + x) == 0;
        } else if x < |a| {
          Base64InMask(s, m - i, x - (m - i));
        } else {
          Base64Shift(a, z, x - |a|);
        }
      }
    }
  }

  // ---- The redaction as a whole -----------------------------------------------------

  /** After its own pass, a pattern matches nothing any more that the pass would
      change. */
  lemma PassCleans(p: Pass, t: string)
    requires p in PASSES
    ensures Clean(p, Sub(p, t, 0), 0)
  {
    match p
    case Key(w) => KeyAfter(w, p, t, 0);
    case Pem => PemAfter(p, t, 0);
    case Base64 => Base64After(t, 0);
  }

  /** The order in the list: the private-key pass comes after the keys, the base64
      pass last. */
  predicate MayFollow(q: Pass, p: Pass) { q.Key? || (q.Pem? && p.Base64?) }

  /** Each pass keeps what an earlier one established. */
  lemma PassKeeps(q: Pass, p: Pass, t: string)
    requires q in PASSES && p in PASSES && MayFollow(q, p) && Clean(q, t, 0)
    ensures Clean(q, Sub(p, t, 0), 0)
  {
    match q
    case Key(w) => KeyAfter(w, p, t, 0);
    case Pem => PemAfter(p, t, 0);
  }

  lemma {:induction false} LaterPassesKeep(q: Pass, passes: seq<Pass>, t: string)
    requires q in PASSES && Clean(q, t, 0)
    requires forall p | p in passes :: p in PASSES && MayFollow(q, p)
    ensures Clean(q, Apply(passes, t), 0)
    decreases |passes|
  {
    hide Clean, Sub, MayFollow;
    if passes != [] {
      PassKeeps(q, passes[0], t);
      LaterPassesKeep(q, passes[1..], Sub(passes[0], t, 0));
    }
  }

  lemma {:induction false} AllClean(passes: seq<Pass>, t: string, k: nat)
    requires forall p | p in passes :: p in PASSES
    requires k < |passes| && forall j | k < j < |passes| :: MayFollow(passes[k], passes[j])
    ensures Clean(passes[k], Apply(passes, t), 0)
    decreases |passes|
  {
    hide Clean, Sub, MayFollow;
    var s := Sub(passes[0], t, 0);
    if k == 0 {
      PassCleans(passes[0], t);
      LaterPassesKeep(passes[0], passes[1..], s);
    } else {
      assert passes[1..][k - 1] == passes[k];
      AllClean(passes[1..], s, k - 1);
    }
  }

  /** Nothing is left to redact in the output, whatever the input. */
  lemma RedactCleans(t: string)
    ensures Redacted(Redact(t))
  {
    hide Clean, Apply;
    forall p | p in PASSES ensures Clean(p, Redact(t), 0) {
      var k :| 0 <= k < |PASSES| && PASSES[k] == p;
      AllClean(PASSES, t, k);
    }
  }

  lemma MaskedReads(w: string, t: string, i: nat)
    requires Masked(w, t, i)
    ensures Reads(t, i + |w|, MASK, 0)
  {
    var e := i + |w| + |MASK|;
    assert t[i + |w|..e] == t[i..e][|w|..] == MASK[0..];
  }

  lemma MaskedLen(w: string, t: string, i: nat)
    requires Masked(w, t, i) && KeyLen(w, t, i) > 0
    ensures KeyLen(w, t, i) == |w| + |MASK|
    ensures Replacement(Key(w), t[i..i + KeyLen(w, t, i)]) == t[i..i + KeyLen(w, t, i)]
  {
    var j := i + |w|;
    assert t[i..j + |MASK|] == w + MASK && (j + |MASK| < |t| ==> !IsVal(t[j + |MASK|]));
    hide RunEnd, WordAt, Masked, Reads, IsVal;
    MaskedReads(w, t, i);
    MaskSepRun(t, j);
    MaskValRun(t, j);
    assert LastValue(t, j, j + 1) == j + 1;
  }

  lemma MaskVal(d: nat)
    requires 0 < d < |MASK|
    ensures IsVal(MASK[d])
  {
  }

  lemma MaskSepRun(t: string, j: nat)
    requires Reads(t, j, MASK, 0)
    ensures RunEnd(IsSep, t, j) == j + 1
  {
    hide RunEnd;
    ReadsChar(t, j, MASK, 0, 0);
    ReadsChar(t, j, MASK, 0, 1);
    RunEndIs(IsSep, t, j, j + 1);
  }

  lemma MaskValRun(t: string, j: nat)
    requires Reads(t, j, MASK, 0)
    requires j + |MASK| < |t| ==> !IsVal(t[j + |MASK|])
    ensures j + |MASK| <= |t| && IsVal(t[j + 1]) && RunEnd(IsVal, t, j + 1) == j + |MASK|
  {
    hide RunEnd, IsVal;
    forall x | j + 1 <= x < j + |MASK| ensures IsVal(t[x]) {
      ReadsChar(t, j, MASK, 0, x - j);
      MaskVal(x - j);
    }
    RunEndIs(IsVal, t, j + 1, j + |MASK|);
  }

  // A scan step at a masked key, or at no key, leaves the text as it is.
  lemma KeyStep(w: string, t: string, i: nat) returns (k: nat)
    requires i < |t| && KeyClean(w, t, i)
    ensures i < k <= |t| && Sub(Key(w), t, i) == t[i..k] + Sub(Key(w), t, k)
  {
    hide KeyLen, Masked, Replacement;
    var n := KeyLen(w, t, i);
    k := if n > 0 then i + n else i + 1;
    if n > 0 {
      MaskedLen(w, t, i);
    } else {
      assert t[i..k] == [t[i]];
    }
  }

  lemma {:induction false} KeyIdentity(w: string, t: string, i: nat)
    requires i <= |t| && KeyClean(w, t, i)
    ensures Sub(Key(w), t, i) == t[i..]
    decreases |t| - i
  {
    hide KeyClean, Sub;
    if i < |t| {
      var k := KeyStep(w, t, i);
      KeyLater(w, t, i, k);
      KeyIdentity(w, t, k);
      assert t[i..] == t[i..k] + t[k..];
    } else {
      SubAtEnd(Key(w), t);
    }
  }

  /** A pass with nothing to do returns its input. */
  lemma CleanIdentity(p: Pass, t: string)
    requires Clean(p, t, 0)
    ensures Sub(p, t, 0) == t
  {
    hide PemLen, Base64Len;
    match p
    case Key(w) =>
      KeyIdentity(w, t, 0);
    case _ =>
      SubSplits(p, t, 0);
      FirstHitFrom(p, t, 0, |t|);
      Whole(t, 0);
  }

  lemma {:induction false} ApplyIdentity(passes: seq<Pass>, t: string)
    requires forall p | p in passes :: Clean(p, t, 0)
    ensures Apply(passes, t) == t
    decreases |passes|
  {
    hide Clean, Sub;
    if passes != [] {
      CleanIdentity(passes[0], t);
      ApplyIdentity(passes[1..], t);
    }
  }

  /** Exactly the texts with nothing left to redact are returned unchanged. */
  lemma UnchangedIff(t: string)
    ensures Redact(t) == t <==> Redacted(t)
  {
    hide Apply, Clean;
    if Redacted(t) { ApplyIdentity(PASSES, t); }
    RedactCleans(t);
  }

  /** Redacting twice is redacting once. */
  lemma RedactIdempotent(t: string)
    ensures Redact(Redact(t)) == Redact(t)
  {
    hide Redact, Redacted;
    RedactCleans(t);
    UnchangedIff(Redact(t));
  }

  /** In the output, a listed key in any case that is followed by separators and
      a value reads exactly `key=[REDACTED]`. */
  lemma KeysAreMasked(t: string, w: string)
    requires IsKey(w)
    ensures var out := Redact(t);
            forall i: nat | i <= |out| && WordAt(w, out, i) && HasSepVal(out, i + |w|) :: Masked(w, out, i)
  {
    hide Redact, KeyLen, Masked, HasSepVal, WordAt;
    var out := Redact(t);
    RedactCleans(t);
    assert Clean(Key(w), out, 0) by { assert Key(w) in PASSES; }
    forall i: nat | i <= |out| && WordAt(w, out, i) && HasSepVal(out, i + |w|) ensures Masked(w, out, i) {
      KeyMatches(w, out, i);
    }
  }

  /** In the output no begin marker of a private key is followed by an end marker. */
  lemma KeysAreClosed(t: string)
    ensures var out := Redact(t);
            forall i: nat, k: nat | i <= |out| && k <= |out| ::
              MarkLen(BEGIN, out, i) > 0 && MarkLen(END, out, k) > 0 ==> k < i + MarkLen(BEGIN, out, i)
  {
    hide Redact, PemLen, MarkLen;
    var out := Redact(t);
    RedactCleans(t);
    assert Clean(Pem, out, 0) by { assert Pem in PASSES; }
    forall i: nat, k: nat | i <= |out| && k <= |out| && MarkLen(BEGIN, out, i) > 0 && MarkLen(END, out, k) > 0
      ensures k < i + MarkLen(BEGIN, out, i)
    {
      PemIff(out, i);
    }
  }

  predicate AllBase64(s: string) { forall c | c in s :: IsBase64(c) }

  /** In the output no stretch of base64 characters is longer than fifty. */
  lemma NoLongBase64(t: string)
    ensures var out := Redact(t);
            forall i: nat, e: nat | i <= e <= |out| && AllBase64(out[i..e]) :: e - i <= 50
  {
    hide Redact, IsBase64;
    var out := Redact(t);
    RedactCleans(t);
    assert Clean(Base64, out, 0) by { assert Base64 in PASSES; }
    forall i: nat, e: nat | i <= e <= |out| && AllBase64(out[i..e]) ensures e - i <= 50 {
      assert Base64Len(out, i) <= 50;
      forall y | i <= y < e ensures IsBase64(out[y]) { assert out[i..e][y - i] in out[i..e]; }
      assert RunEnd(IsBase64, out, i) >= e;
    }
  }
}
