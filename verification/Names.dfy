/** Canonicalisation of pool names and nicks, over ASCII. */
module Names {

  predicate IsSpace(c: char) { c == ' ' || 9 <= c as int <= 13 }

  function TrimSpaceLeft(s: string): (r: string)
    ensures |r| <= |s|
  {
    if s != "" && IsSpace(s[0]) then TrimSpaceLeft(s[1..]) else s
  }

  function TrimSpaceRight(s: string): (r: string)
    ensures |r| <= |s|
  {
    if s != "" && IsSpace(s[|s| - 1]) then TrimSpaceRight(s[..|s| - 1]) else s
  }

  function TrimHyphensLeft(s: string): (r: string)
    ensures |r| <= |s|
  {
    if s != "" && s[0] == '-' then TrimHyphensLeft(s[1..]) else s
  }

  function TrimHyphensRight(s: string): (r: string)
    ensures |r| <= |s|
  {
    if s != "" && s[|s| - 1] == '-' then TrimHyphensRight(s[..|s| - 1]) else s
  }

  /** Lower case, with an underscore folded to a hyphen. */
  function Fold(c: char): char {
    if c == '_' then '-' else if 'A' <= c <= 'Z' then (c as int + 32) as char else c
  }

  function FoldAll(s: string): (r: string)
    ensures |r| == |s|
  {
    if s == "" then "" else [Fold(s[0])] + FoldAll(s[1..])
  }

  /** `normalizeName`. */
  function Normalize(raw: string): string {
    TrimHyphensRight(TrimHyphensLeft(FoldAll(TrimSpaceRight(TrimSpaceLeft(raw)))))
  }

  /** A name normalised by a caller and again by the registry, which takes it as it comes. */
  function Twice(raw: string): string { Normalize(Normalize(raw)) }

  predicate Canonical(n: string) { n != "" && Normalize(n) == n }

  // ------------------------------------------------------ what trimming leaves

  predicate Folded(s: string) { forall i :: 0 <= i < |s| ==> Fold(s[i]) == s[i] }

  lemma {:induction false} FoldAllFolds(s: string)
    ensures Folded(FoldAll(s))
  {
    if s != "" { FoldAllFolds(s[1..]); }
  }

  lemma {:induction false} FoldedFixed(s: string)
    requires Folded(s)
    ensures FoldAll(s) == s
  {
    if s != "" {
      FoldedFixed(s[1..]);
      assert s == [s[0]] + s[1..];
    }
  }

  lemma {:induction false} HyphensLeft(s: string)
    ensures var r := TrimHyphensLeft(s); (r == "" || r[0] != '-') && (Folded(s) ==> Folded(r))
  {
    if s != "" && s[0] == '-' { HyphensLeft(s[1..]); }
  }

  lemma {:induction false} HyphensRight(s: string)
    requires s == "" || s[0] != '-'
    ensures var r := TrimHyphensRight(s);
      (r == "" || (r[0] != '-' && r[|r| - 1] != '-')) && (Folded(s) ==> Folded(r))
  {
    if s != "" && s[|s| - 1] == '-' { HyphensRight(s[..|s| - 1]); }
  }

  ghost predicate EndsClean(n: string) { n == "" || (!IsSpace(n[0]) && !IsSpace(n[|n| - 1])) }

  lemma TrimSpaceExactly(n: string)
    ensures var t := TrimSpaceRight(TrimSpaceLeft(n)); if EndsClean(n) then t == n else |t| < |n|
  {
  }

  /** A stretch of one kind of character. */
  ghost predicate Only(s: string, keep: char -> bool) { forall i :: 0 <= i < |s| ==> keep(s[i]) }

  /** `inner` is what is left of `whole` when all there is of a kind is cut from both ends. */
  ghost predicate Cuts(whole: string, a: string, inner: string, z: string, cut: char -> bool) {
    whole == a + inner + z && Only(a, cut) && Only(z, cut) && (inner != "" ==> !cut(inner[0]) && !cut(inner[|inner| - 1]))
  }

  lemma {:induction false} SpaceLeft(s: string) returns (a: string)
    ensures s == a + TrimSpaceLeft(s) && Only(a, IsSpace) && (TrimSpaceLeft(s) != "" ==> !IsSpace(TrimSpaceLeft(s)[0]))
  {
    a := "";
    if s != "" && IsSpace(s[0]) {
      var b := SpaceLeft(s[1..]);
      a := [s[0]] + b;
      assert s == [s[0]] + s[1..];
    }
  }

  lemma {:induction false} SpaceRight(s: string) returns (z: string)
    ensures var t := TrimSpaceRight(s);
      s == t + z && Only(z, IsSpace) && (t != "" ==> t[0] == s[0] && !IsSpace(t[|t| - 1]))
  {
    z := "";
    if s != "" && IsSpace(s[|s| - 1]) {
      var y := SpaceRight(s[..|s| - 1]);
      z := y + [s[|s| - 1]];
      assert s == s[..|s| - 1] + [s[|s| - 1]];
    }
  }

  predicate IsHyphen(c: char) { c == '-' }

  lemma {:induction false} HyphenLeft(s: string) returns (a: string)
    ensures s == a + TrimHyphensLeft(s) && Only(a, IsHyphen) && (TrimHyphensLeft(s) != "" ==> TrimHyphensLeft(s)[0] != '-')
  {
    a := "";
    if s != "" && s[0] == '-' {
      var b := HyphenLeft(s[1..]);
      a := [s[0]] + b;
      assert s == [s[0]] + s[1..];
    }
  }

  lemma {:induction false} HyphenRight(s: string) returns (z: string)
    ensures var t := TrimHyphensRight(s);
      s == t + z && Only(z, IsHyphen) && (t != "" ==> t[0] == s[0] && t[|t| - 1] != '-')
  {
    z := "";
    if s != "" && s[|s| - 1] == '-' {
      var y := HyphenRight(s[..|s| - 1]);
      z := y + [s[|s| - 1]];
      assert s == s[..|s| - 1] + [s[|s| - 1]];
    }
  }

  /** Letter by letter: capitals become small, an underscore a hyphen, and nothing else changes. */
  lemma {:induction false} FoldsEach(s: string)
    ensures forall i :: 0 <= i < |s| ==>
      FoldAll(s)[i] == if s[i] == '_' then '-' else if 'A' <= s[i] <= 'Z' then (s[i] as int - 'A' as int + 'a' as int) as char else s[i]
  {
    if s != "" { FoldsEach(s[1..]); }
  }

  /** A normalised name: white space cut from both ends, the rest folded letter by letter, then hyphens cut from both ends. */
  lemma NormalizeExactly(raw: string) returns (a: string, body: string, z: string, b: string, y: string)
    ensures Cuts(raw, a, body, z, IsSpace) && Cuts(FoldAll(body), b, Normalize(raw), y, IsHyphen)
  {
    a := SpaceLeft(raw);
    var left := TrimSpaceLeft(raw);
    z := SpaceRight(left);
    body := TrimSpaceRight(left);
    var folded := FoldAll(body);
    b := HyphenLeft(folded);
    var rest := TrimHyphensLeft(folded);
    y := HyphenRight(rest);
    assert raw == a + (body + z) == a + body + z;
    assert folded == b + (Normalize(raw) + y) == b + Normalize(raw) + y;
  }

  /**
   Normalising is not idempotent. A second pass changes a name exactly when the first
   one left white space at an end, as it does for "- a"; then it shortens it.
   */
  lemma NormalizeTwice(raw: string)
    ensures var n := Normalize(raw);
      && (Normalize(n) == n <==> EndsClean(n))
      && (Normalize(n) == n || |Normalize(n)| < |n|)
  {
    var t := TrimSpaceRight(TrimSpaceLeft(raw));
    FoldAllFolds(t);
    HyphensLeft(FoldAll(t));
    HyphensRight(TrimHyphensLeft(FoldAll(t)));
    var n := Normalize(raw);
    TrimSpaceExactly(n);
    if EndsClean(n) { FoldedFixed(n); }
  }

  /** Of a name that starts "- " each pass takes just the hyphen, and the space before it if there is one. */
  lemma Peel(s: string)
    requires |s| > 2 && s[0] == '-' && s[1] == ' ' && s[|s| - 1] == 'a' && Folded(s)
    ensures Normalize(s) == s[1..] && Normalize([' '] + s) == s[1..]
  {
    assert ([' '] + s)[1..] == s;
    FoldedFixed(s);
    assert TrimHyphensLeft(s[1..]) == s[1..];
    assert s[1..][|s| - 2] == 'a';
  }

  lemma NotIdempotent()
    ensures Normalize("- a") == " a" && Normalize(" a") == "a"
  {
    Peel("- a");
    FoldedFixed("a");
    var t: string := " a";
    assert t[1..] == "a";
  }
}
