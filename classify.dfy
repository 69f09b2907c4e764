/**
 * classify_kind: the kind of a map record from its construction flag and its
 * structure name. The construction flag decides first; otherwise the
 * lower-cased name is searched for keyword groups in a fixed order (cafe, home,
 * apartment, building), and the first group with a keyword inside the name
 * wins; a name matching none is "other".
 */
module Classify {
  import opened Coords

  datatype Kind = Construction | Cafe | Home | Apartment | Building | Other

  /** The order in which the kinds are tried. */
  function Rank(k: Kind): nat {
    match k
    case Construction => 0
    case Cafe => 1
    case Home => 2
    case Apartment => 3
    case Building => 4
    case Other => 5
  }

  /** Lower-casing of one character; only the ASCII capitals change. */
  function LowerChar(c: char): char {
    if 'A' <= c <= 'Z' then (c as int + 32) as char else c
  }

  /** The lower-cased name. */
  function Lower(s: string): (t: string)
    ensures |t| == |s| && forall i :: 0 <= i < |s| ==> t[i] == LowerChar(s[i])
  {
    seq(|s|, i requires 0 <= i < |s| => LowerChar(s[i]))
  }

  /** t occurs in s starting at index i. */
  predicate OccursAt(s: string, t: string, i: nat) {
    i + |t| <= |s| && s[i..i + |t|] == t
  }

  /** Python's `t in s` on strings. */
  predicate Contains(s: string, t: string) {
    exists i: nat | i + |t| <= |s| :: OccursAt(s, t, i)
  }

  /** Some keyword of kind k occurs in the lower-cased name n. */
  predicate NameMatches(k: Kind, n: string) {
    match k
    case Cafe => Contains(n, "coffee") || Contains(n, "\U{CEE4}\U{D53C}")
    case Home => Contains(n, "myhome") || Contains(n, "home") || Contains(n, "house") || Contains(n, "\U{C9D1}")
    case Apartment => Contains(n, "apartment") || Contains(n, "\U{C544}\U{D30C}\U{D2B8}")
    case Building => Contains(n, "building") || Contains(n, "\U{BE4C}\U{B529}")
    case _ => false
  }

  /** The test of kind k holds for the flag cs and the lower-cased name n. */
  predicate Matches(k: Kind, cs: int, n: string) {
    match k
    case Construction => cs == 1
    case Other => true
    case _ => NameMatches(k, n)
  }

  /**
   * classify_kind (map_direct_save.py): the result is the first kind, in test
   * order, whose test holds for the record.
   */
  function ClassifyKind(constructionSite: int, name: string): (k: Kind)
    ensures Matches(k, constructionSite, Lower(name))
    ensures forall k' :: Rank(k') < Rank(k) ==> !Matches(k', constructionSite, Lower(name))
  {
    if constructionSite == 1 then Construction
    else
      var n := Lower(name);
      if Contains(n, "coffee") || Contains(n, "\U{CEE4}\U{D53C}") then Cafe
      else if Contains(n, "myhome") || Contains(n, "home") || Contains(n, "house") || Contains(n, "\U{C9D1}") then Home
      else if Contains(n, "apartment") || Contains(n, "\U{C544}\U{D30C}\U{D2B8}") then Apartment
      else if Contains(n, "building") || Contains(n, "\U{BE4C}\U{B529}") then Building
      else Other
  }

  /**
   * classify_kind (map_draw.py): the same tests, with a missing construction
   * flag read as 0.
   */
  function ClassifyKindDraw(constructionSite: Option<int>, name: string): (k: Kind)
    ensures k == Construction <==> constructionSite == Some(1)
    ensures constructionSite.None? ==> k == ClassifyKind(0, name)
    ensures constructionSite.Some? ==> k == ClassifyKind(constructionSite.value, name)
  {
    var cs := match constructionSite
      case Some(v) => v
      case None => 0;
    ClassifyKind(cs, name)
  }

  /** The result is unique: at most one kind is the first to match. */
  lemma FirstMatchUnique(cs: int, name: string, k: Kind)
    requires Matches(k, cs, Lower(name))
    requires forall k' :: Rank(k') < Rank(k) ==> !Matches(k', cs, Lower(name))
    ensures ClassifyKind(cs, name) == k
  {
    var r := ClassifyKind(cs, name);
    assert Rank(r) < Rank(k) ==> !Matches(r, cs, Lower(name));
    assert Rank(k) < Rank(r) ==> !Matches(k, cs, Lower(name));
    assert Rank(r) == Rank(k);
  }

  lemma LowerIdempotent(s: string)
    ensures Lower(Lower(s)) == Lower(s)
  {
  }

  /** Classification ignores the case of the name. */
  lemma CaseInsensitive(cs: int, name: string)
    ensures ClassifyKind(cs, Lower(name)) == ClassifyKind(cs, name)
  {
    LowerIdempotent(name);
  }

  /** Any name containing "myhome" contains "home", so the "myhome" keyword never decides anything. */
  lemma {:induction false} MyHomeKeywordRedundant(n: string)
    requires Contains(n, "myhome")
    ensures Contains(n, "home")
  {
    var i: nat :| i + 6 <= |n| && OccursAt(n, "myhome", i);
    assert n[i..i + 6] == "myhome";
    assert n[i + 2..i + 6] == n[i..i + 6][2..6];
    assert OccursAt(n, "home", i + 2);
  }

  /** A construction flag beats every name. */
  lemma ConstructionFirst(name: string)
    ensures ClassifyKind(1, name) == Construction
  {
  }

  /** A name with both a cafe keyword and a home keyword is a cafe. */
  lemma CafeBeforeHome(cs: int, name: string)
    requires cs != 1
    requires NameMatches(Cafe, Lower(name)) && NameMatches(Home, Lower(name))
    ensures ClassifyKind(cs, name) == Cafe
  {
  }

  /** An apartment keyword wins over a building keyword when no earlier keyword occurs. */
  lemma ApartmentBeforeBuilding(cs: int, name: string)
    requires cs != 1 && !NameMatches(Cafe, Lower(name)) && !NameMatches(Home, Lower(name))
    requires NameMatches(Apartment, Lower(name)) && NameMatches(Building, Lower(name))
    ensures ClassifyKind(cs, name) == Apartment
  {
  }

  /**
   * Example: "BandalgomCoffee", the goal's own record name, is a cafe, since the
   * capital C is lowered before the test; flagged as a construction site it is one.
   */
  lemma CoffeeShopName()
    ensures ClassifyKind(0, "BandalgomCoffee") == Cafe
    ensures ClassifyKind(1, "BandalgomCoffee") == Construction
  {
    var n := Lower("BandalgomCoffee");
    assert n[9..15] == "coffee";
    assert OccursAt(n, "coffee", 9);
  }
}
