/** Keeping only the news records whose headline names the company as an
    organisation entity. The entity recogniser is a parameter: a function from
    headline text to the entities found in it. */
module EntityFilter {
  import opened Records

  predicate IsUpper(c: char) {
    'A' <= c <= 'Z'
  }

  /** ASCII lower-casing of one character. */
  function LowerChar(c: char): char {
    if IsUpper(c) then (c as int + 32) as char else c
  }

  /** ASCII lower-casing of a string: no upper-case letter is left, and every
      other character is kept as it is. */
  function Lower(s: string): (r: string)
    ensures |r| == |s|
    ensures forall i :: 0 <= i < |r| ==> !IsUpper(r[i])
    ensures forall i :: 0 <= i < |s| && !IsUpper(s[i]) ==> r[i] == s[i]
  {
    seq(|s|, i requires 0 <= i < |s| => LowerChar(s[i]))
  }

  /** `a` and `b` are the same character up to ASCII case. */
  predicate SameIgnoringCase(a: char, b: char) {
    || a == b
    || (IsUpper(a) && b as int == a as int + 32)
    || (IsUpper(b) && a as int == b as int + 32)
  }

  /** Two strings lower-case to the same string exactly when they agree
      position by position up to ASCII case: what the case-insensitive match
      relies on. */
  lemma LowerEqualIffSameIgnoringCase(s: string, t: string)
    ensures Lower(s) == Lower(t) <==> |s| == |t| && forall i :: 0 <= i < |s| ==> SameIgnoringCase(s[i], t[i])
  {
    if Lower(s) == Lower(t) {
      forall i | 0 <= i < |s| ensures SameIgnoringCase(s[i], t[i]) {
        assert Lower(s)[i] == Lower(t)[i];
      }
    }
    if |s| == |t| && forall i :: 0 <= i < |s| ==> SameIgnoringCase(s[i], t[i]) {
      assert forall i :: 0 <= i < |s| ==> Lower(s)[i] == Lower(t)[i];
    }
  }

  /** `needle` occurs in `hay` starting at index `i`. */
  predicate OccursAt(hay: string, needle: string, i: int) {
    0 <= i && i + |needle| <= |hay| && hay[i..i + |needle|] == needle
  }

  /** `needle` occurs in `hay` as a contiguous substring (Python's `in` on
      strings): it is never longer than `hay`, the empty string always occurs,
      and a string as long as `hay` occurs only when it is `hay`. */
  function Contains(hay: string, needle: string): (found: bool)
    ensures found ==> |needle| <= |hay|
    ensures needle == [] ==> found
    ensures |needle| == |hay| ==> (found <==> hay == needle)
  {
    assert needle == [] ==> OccursAt(hay, needle, 0);
    assert hay == needle ==> OccursAt(hay, needle, 0);
    exists i | 0 <= i <= |hay| - |needle| :: OccursAt(hay, needle, i)
  }

  /** A string occurs in any text made of it with text on either side, and
      every occurrence splits the text that way. */
  lemma ContainsIffSplit(hay: string, needle: string)
    ensures Contains(hay, needle) <==>
      exists i :: 0 <= i <= |hay| - |needle| && hay == hay[..i] + needle + hay[i + |needle|..]
  {
    if Contains(hay, needle) {
      var i :| 0 <= i <= |hay| - |needle| && OccursAt(hay, needle, i);
      assert hay == hay[..i] + needle + hay[i + |needle|..];
    }
    if exists i :: 0 <= i <= |hay| - |needle| && hay == hay[..i] + needle + hay[i + |needle|..] {
      var i :| 0 <= i <= |hay| - |needle| && hay == hay[..i] + needle + hay[i + |needle|..];
      assert hay[i..i + |needle|] == needle;
      assert OccursAt(hay, needle, i);
    }
  }

  /** Whether `e` is an organisation entity whose text contains the company
      name, ignoring case. */
  predicate OrgMatches(company: string, e: Entity) {
    Contains(Lower(e.text), Lower(company)) && e.kind == "ORG"
  }

  /** Whether some entity of the headline matches the company. */
  predicate HasOrgMatch(company: string, ents: seq<Entity>) {
    exists j :: 0 <= j < |ents| && OrgMatches(company, ents[j])
  }

  /** Whether the record is kept: some recognised entity of its headline matches its company. */
  predicate Keeps(ner: string -> seq<Entity>, r: NewsRecord) {
    HasOrgMatch(r.company, ner(r.headline))
  }

  /** The records kept by the filter, in input order: never more than the
      input, and every one of them passes the entity check. */
  function Kept(ner: string -> seq<Entity>, records: seq<NewsRecord>): (kept: seq<NewsRecord>)
    ensures |kept| <= |records|
    ensures forall i :: 0 <= i < |kept| ==> Keeps(ner, kept[i])
  {
    if records == [] then []
    else
      var last := records[|records| - 1];
      Kept(ner, records[..|records| - 1]) + (if Keeps(ner, last) then [last] else [])
  }

  /** The inner loop over the entities of one headline: stops at the first match. */
  method FindOrg(company: string, ents: seq<Entity>) returns (found: bool)
    ensures found <==> HasOrgMatch(company, ents)
  {
    found := false;
    var j := 0;
    while j < |ents|
      invariant 0 <= j <= |ents|
      invariant !found
      invariant forall k :: 0 <= k < j ==> !OrgMatches(company, ents[k])
    {
      if Contains(Lower(ents[j].text), Lower(company)) && ents[j].kind == "ORG" {
        found := true;
        break;
      }
      j := j + 1;
    }
  }

  /** The outer loop: appends each record whose headline has a matching entity. */
  method FilterByEntity(ner: string -> seq<Entity>, records: seq<NewsRecord>) returns (goodNews: seq<NewsRecord>)
    ensures goodNews == Kept(ner, records)
  {
    goodNews := [];
    for i := 0 to |records|
      invariant goodNews == Kept(ner, records[..i])
    {
      var row := records[i];
      var foundOrg := FindOrg(row.company, ner(row.headline));
      if foundOrg {
        goodNews := goodNews + [row];
      }
      assert records[..i + 1][..i] == records[..i];
    }
    assert records[..|records|] == records;
  }

  /** `a` can be obtained from `b` by deleting elements, keeping the order of the rest. */
  predicate IsSubsequence<T(==)>(a: seq<T>, b: seq<T>)
    decreases |b|
  {
    if a == [] then true
    else if b == [] then false
    else if a[|a| - 1] == b[|b| - 1] then IsSubsequence(a[..|a| - 1], b[..|b| - 1])
    else IsSubsequence(a, b[..|b| - 1])
  }

  lemma {:induction false} SubsequenceDropLast<T>(a: seq<T>, b: seq<T>)
    requires a != [] && IsSubsequence(a, b)
    ensures IsSubsequence(a[..|a| - 1], b)
    decreases |b|, 0
  {
    var a' := a[..|a| - 1];
    if a' != [] {
      if a[|a| - 1] == b[|b| - 1] {
        SubsequenceExtend(a', b[..|b| - 1], b[|b| - 1]);
        assert b[..|b| - 1] + [b[|b| - 1]] == b;
      } else {
        SubsequenceDropLast(a, b[..|b| - 1]);
        SubsequenceExtend(a', b[..|b| - 1], b[|b| - 1]);
        assert b[..|b| - 1] + [b[|b| - 1]] == b;
      }
    }
  }

  /** Appending an element to the longer sequence keeps a subsequence one. */
  lemma {:induction false} SubsequenceExtend<T>(a: seq<T>, b: seq<T>, x: T)
    requires IsSubsequence(a, b)
    ensures IsSubsequence(a, b + [x])
    decreases |b|, 1
  {
    var b' := b + [x];
    assert b'[..|b'| - 1] == b;
    if a != [] && a[|a| - 1] == x {
      SubsequenceDropLast(a, b);
    }
  }

  /** The kept records are a subsequence of the input: nothing is reordered or duplicated. */
  lemma {:induction false} KeptIsSubsequence(ner: string -> seq<Entity>, records: seq<NewsRecord>)
    ensures IsSubsequence(Kept(ner, records), records)
  {
    if records != [] {
      var init := records[..|records| - 1];
      var last := records[|records| - 1];
      KeptIsSubsequence(ner, init);
      assert init + [last] == records;
      if Keeps(ner, last) {
        var k := Kept(ner, init) + [last];
        assert Kept(ner, records) == k;
        assert k[..|k| - 1] == Kept(ner, init);
      } else {
        assert Kept(ner, records) == Kept(ner, init);
        SubsequenceExtend(Kept(ner, init), init, last);
      }
    }
  }

  /** Every record is kept exactly as often as it occurs in the input when it
      passes the entity check, and never otherwise. */
  lemma {:induction false} KeptCount(ner: string -> seq<Entity>, records: seq<NewsRecord>, r: NewsRecord)
    ensures multiset(Kept(ner, records))[r] == if Keeps(ner, r) then multiset(records)[r] else 0
  {
    if records != [] {
      var init := records[..|records| - 1];
      var last := records[|records| - 1];
      KeptCount(ner, init, r);
      assert init + [last] == records;
    }
  }

  /** Filtering twice keeps what filtering once kept. */
  lemma {:induction false} KeptIdempotent(ner: string -> seq<Entity>, records: seq<NewsRecord>)
    ensures Kept(ner, Kept(ner, records)) == Kept(ner, records)
  {
    if records != [] {
      var init := records[..|records| - 1];
      var last := records[|records| - 1];
      KeptIdempotent(ner, init);
      if Keeps(ner, last) {
        var k := Kept(ner, init) + [last];
        assert Kept(ner, records) == k;
        assert k[..|k| - 1] == Kept(ner, init);
        assert Kept(ner, k) == Kept(ner, Kept(ner, init)) + [last];
      } else {
        assert Kept(ner, records) == Kept(ner, init);
      }
    }
  }
}
