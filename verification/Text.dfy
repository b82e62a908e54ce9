/** Whitespace, trimming, and comma-separated lists, as the agent's configuration
    file and the redaction patterns see them. */
module Text {

  // What a Python string calls whitespace.
  predicate IsSpace(c: char)
  {
    || '\U{9}' <= c <= '\U{D}' || '\U{1C}' <= c <= ' '
    || c == '\U{85}' || c == '\U{A0}' || c == '\U{1680}' || '\U{2000}' <= c <= '\U{200A}'
    || c == '\U{2028}' || c == '\U{2029}' || c == '\U{202F}' || c == '\U{205F}' || c == '\U{3000}'
  }

  // The same characters, one by one.
  const WHITESPACE := "\t\n\U{B}\U{C}\r\U{1C}\U{1D}\U{1E}\U{1F} \U{85}\U{A0}\U{1680}\U{2000}\U{2001}\U{2002}\U{2003}"
    + "\U{2004}\U{2005}\U{2006}\U{2007}\U{2008}\U{2009}\U{200A}\U{2028}\U{2029}\U{202F}\U{205F}\U{3000}"

  lemma SpaceIs(c: char)
    ensures IsSpace(c) <==> c in WHITESPACE
  {
  }

  predicate Trimmed(s: string)
  {
    s == [] || (!IsSpace(s[0]) && !IsSpace(s[|s| - 1]))
  }

  function StripStart(s: string): (r: string)
    ensures r == [] || !IsSpace(r[0])
    ensures |r| <= |s|
  {
    if s != [] && IsSpace(s[0]) then StripStart(s[1..]) else s
  }

  function StripEnd(s: string): (r: string)
    ensures r == [] || !IsSpace(r[|r| - 1])
    ensures r <= s
  {
    if s != [] && IsSpace(s[|s| - 1]) then StripEnd(s[..|s| - 1]) else s
  }

  function Strip(s: string): (r: string)
    ensures Trimmed(r) && |r| <= |s|
    ensures Trimmed(s) ==> r == s
  {
    StripEnd(StripStart(s))
  }

  lemma {:induction false} StripStartKeeps(s: string)
    ensures StripStart(s) == s[|s| - |StripStart(s)|..]
  {
    if s != [] && IsSpace(s[0]) { StripStartKeeps(s[1..]); }
  }

  /** Stripping takes a character away or leaves the text as it is, and brings none in. */
  lemma StripKeeps(s: string, c: char)
    ensures c !in s ==> c !in Strip(s)
    ensures |Strip(s)| == |s| ==> Strip(s) == s
  {
    hide StripStart, StripEnd;
    StripStartKeeps(s);
  }

  predicate AllSpace(s: string) { forall c :: c in s ==> c in WHITESPACE }

  /** The text ends, or begins and ends, with a character that is no whitespace. */
  predicate EndsPlain(s: string) { s == "" || s[|s| - 1] !in WHITESPACE }

  predicate IsPlain(s: string) { s == "" || (s[0] !in WHITESPACE && s[|s| - 1] !in WHITESPACE) }

  /** str.rstrip() takes the whitespace off the end, and nothing else. */
  lemma {:induction false} StripEndIs(s: string, b: string)
    requires EndsPlain(s) && AllSpace(b)
    ensures StripEnd(s + b) == s
  {
    hide IsSpace;
    if b == "" {
      assert s + b == s;
      if s != "" { SpaceIs(s[|s| - 1]); }
    } else {
      var last := |b| - 1;
      assert b[last] in b;
      SpaceIs(b[last]);
      assert (s + b)[..|s + b| - 1] == s + b[..last];
      StripEndIs(s, b[..last]);
    }
  }

  lemma {:induction false} StripStartIs(a: string, s: string)
    requires AllSpace(a) && (s != "" ==> s[0] !in WHITESPACE)
    ensures StripStart(a + s) == s
  {
    hide IsSpace;
    if a == "" {
      assert a + s == s;
      if s != "" { SpaceIs(s[0]); }
    } else {
      assert a[0] in a;
      SpaceIs(a[0]);
      assert (a + s)[1..] == a[1..] + s;
      StripStartIs(a[1..], s);
    }
  }

  /** str.strip() takes the whitespace off both ends, and nothing else. */
  lemma StripIs(a: string, s: string, b: string)
    requires AllSpace(a) && IsPlain(s) && AllSpace(b)
    ensures Strip(a + s + b) == s
  {
    hide StripStart, StripEnd;
    if s == "" {
      assert a + s + b == (a + b) + "" && "" + "" == "";
      StripStartIs(a + b, "");
      StripEndIs("", "");
    } else {
      assert a + s + b == a + (s + b);
      StripStartIs(a, s + b);
      StripEndIs(s, b);
    }
  }

  /** str.split(","): the pieces between the commas. */
  function Split(s: string): (r: seq<string>)
    ensures r != []
  {
    if s == [] then [[]]
    else
      var rest := Split(s[1..]);
      if s[0] == ',' then [[]] + rest else [[s[0]] + rest[0]] + rest[1..]
  }

  /** ",".join(parts) */
  function Join(parts: seq<string>): string
  {
    if parts == [] then []
    else if |parts| == 1 then parts[0]
    else parts[0] + "," + Join(parts[1..])
  }

  lemma {:induction false} SplitPieces(s: string)
    ensures forall x | x in Split(s) :: ',' !in x
  {
    if s != [] { SplitPieces(s[1..]); }
  }

  /** Joining undoes splitting. */
  lemma {:induction false} JoinOfSplit(s: string)
    ensures Join(Split(s)) == s
  {
    if s != [] {
      JoinOfSplit(s[1..]);
      var rest := Split(s[1..]);
      if s[0] == ',' {
        assert Split(s)[1..] == rest;
      } else if |rest| > 1 {
        assert Split(s)[1..] == rest[1..];
      }
      assert s == [s[0]] + s[1..];
    }
  }

  lemma {:induction false} SplitOfWord(x: string)
    requires ',' !in x
    ensures Split(x) == [x]
  {
    if x != [] {
      assert x[0] in x && x == [x[0]] + x[1..];
      SplitOfWord(x[1..]);
    }
  }

  lemma {:induction false} SplitAtComma(x: string, s: string)
    requires ',' !in x
    ensures Split(x + "," + s) == [x] + Split(s)
  {
    if x == [] {
      assert (x + "," + s)[1..] == s;
    } else {
      assert x[0] in x && [x[0]] + x[1..] == x;
      SplitAtComma(x[1..], s);
      assert (x + "," + s)[1..] == x[1..] + "," + s;
      var rest := [x[1..]] + Split(s);
      assert rest[0] == x[1..] && rest[1..] == Split(s);
    }
  }

  /** Splitting undoes joining, for parts without a comma. */
  lemma {:induction false} SplitOfJoin(parts: seq<string>)
    requires parts != [] && forall x | x in parts :: ',' !in x
    ensures Split(Join(parts)) == parts
  {
    if |parts| == 1 {
      SplitOfWord(parts[0]);
    } else {
      SplitOfJoin(parts[1..]);
      SplitAtComma(parts[0], Join(parts[1..]));
    }
  }

  /** [p.strip() for p in parts if p.strip()] */
  function Cleaned(parts: seq<string>): (r: seq<string>)
  {
    if parts == [] then []
    else (if Strip(parts[0]) == [] then [] else [Strip(parts[0])]) + Cleaned(parts[1..])
  }

  // A list entry that survives being written and read.
  predicate IsItem(x: string) { x != [] && Trimmed(x) && ',' !in x }

  lemma StripIsItem(x: string)
    requires ',' !in x
    ensures Strip(x) == [] || IsItem(Strip(x))
  {
    hide Strip, Trimmed;
    StripKeeps(x, ',');
  }

  lemma {:induction false} CleanedAreItems(parts: seq<string>)
    requires forall x | x in parts :: ',' !in x
    ensures forall x | x in Cleaned(parts) :: IsItem(x)
  {
    hide Strip, Trimmed;
    if parts != [] {
      StripIsItem(parts[0]);
      CleanedAreItems(parts[1..]);
    }
  }

  lemma {:induction false} CleanedItems(parts: seq<string>)
    requires forall x | x in parts :: IsItem(x)
    ensures Cleaned(parts) == parts
  {
    if parts != [] {
      assert IsItem(parts[0]);
      CleanedItems(parts[1..]);
    }
  }

  function Items(s: string): seq<string> { Cleaned(Split(s)) }

  lemma {:induction false} JoinTrimmed(parts: seq<string>)
    requires forall x | x in parts :: IsItem(x)
    ensures Trimmed(Join(parts)) && (parts != [] ==> Join(parts) != [] && !IsSpace(Join(parts)[0]))
  {
    if parts != [] {
      assert IsItem(parts[0]);
      if |parts| > 1 {
        JoinTrimmed(parts[1..]);
        assert parts[1] in parts[1..];
        var j := Join(parts[1..]);
        assert Join(parts)[|Join(parts)| - 1] == j[|j| - 1];
      }
    }
  }

  lemma ItemsOfJoin(parts: seq<string>)
    requires forall x | x in parts :: IsItem(x)
    ensures Items(Strip(Join(parts))) == parts
  {
    hide Cleaned, Split, Strip, IsItem, Trimmed;
    JoinTrimmed(parts);
    if parts == [] {
      EmptyItems();
    } else {
      ItemsHaveNoComma(parts);
      SplitOfJoin(parts);
      CleanedItems(parts);
    }
  }

  lemma ItemsHaveNoComma(parts: seq<string>)
    requires forall x | x in parts :: IsItem(x)
    ensures forall x | x in parts :: ',' !in x
  {
  }

  lemma EmptyItems()
    ensures Items(Strip([])) == []
  {
    hide IsSpace;
    assert Strip([]) == [] && Split([]) == [[]];
    assert Cleaned([[]]) == [];
  }

  /** A list comes back from its comma-separated form exactly when every entry is
      non-empty, trimmed and free of commas. */
  lemma ItemsOfJoinIff(parts: seq<string>)
    ensures Items(Strip(Join(parts))) == parts <==> forall x | x in parts :: IsItem(x)
  {
    hide Cleaned, Split, Strip, IsItem, Join;
    SplitPieces(Strip(Join(parts)));
    CleanedAreItems(Split(Strip(Join(parts))));
    if forall x | x in parts :: IsItem(x) { ItemsOfJoin(parts); }
  }
}
