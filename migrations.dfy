/** Choosing the latest schema migration from the embedded migration files: the names
    that the unanchored pattern `(\d+)_migration.*` matches are sorted as strings, the
    last one is taken, and the digits the pattern captures in it are read as the version. */
module Migrations {
  import opened Errors
  import opened Decimal
  import opened Strings

  const MigrationWord := "_migration"

  /** Where the run of digits that starts at `i` ends. */
  function DigitRunEnd(s: string, i: nat): (j: nat)
    requires i <= |s|
    ensures i <= j <= |s| && AllDigits(s[i..j])
    ensures j < |s| ==> !IsDigit(s[j])
    decreases |s| - i
  {
    if i < |s| && IsDigit(s[i]) then DigitRunEnd(s, i + 1) else i
  }

  /** The pattern matches starting at `i`: the greedy `\d+` takes the whole run of digits
      from `i`, and "_migration" follows it (`.*` accepts whatever comes after). */
  predicate MatchesAt(s: string, i: nat)
    requires i <= |s|
  {
    i < |s| && IsDigit(s[i]) && HasPrefixAt(s, DigitRunEnd(s, i), MigrationWord)
  }

  /** The leftmost match at or after `start`, as its capture group: the digits. */
  function FindSubmatchFrom(s: string, start: nat): (r: Option<string>)
    requires start <= |s|
    ensures r.Some? ==>
      exists i :: start <= i <= |s| && MatchesAt(s, i) && r.value == s[i..DigitRunEnd(s, i)]
                  && forall k :: start <= k < i ==> !MatchesAt(s, k)
    ensures r.Some? ==> r.value != [] && AllDigits(r.value)
    ensures r.None? ==> forall i :: start <= i <= |s| ==> !MatchesAt(s, i)
    decreases |s| - start
  {
    if start == |s| then None
    else if MatchesAt(s, start) then Some(s[start..DigitRunEnd(s, start)])
    else FindSubmatchFrom(s, start + 1)
  }

  /** `pathRE.FindSubmatch(name)[1]`, when there is a match. */
  function FindSubmatch(s: string): (r: Option<string>)
    ensures r.Some? <==> exists i :: 0 <= i <= |s| && MatchesAt(s, i)
    ensures r.Some? ==> r.value != [] && AllDigits(r.value)
  {
    FindSubmatchFrom(s, 0)
  }

  /** `pathRE.Match(name)`. */
  predicate Match(s: string): (b: bool)
    ensures b <==> exists i :: 0 <= i <= |s| && MatchesAt(s, i)
  {
    FindSubmatch(s).Some?
  }

  /** The declarative reading of the pattern: somewhere in the name a non-empty run of
      digits is immediately followed by "_migration". */
  ghost predicate ContainsVersionedMigration(s: string)
  {
    exists p, q :: OccursAt(s, p, q)
  }

  /** The digits `s[p..q]` are immediately followed by "_migration". */
  predicate OccursAt(s: string, p: nat, q: nat)
  {
    p < q <= |s| && AllDigits(s[p..q]) && HasPrefixAt(s, q, MigrationWord)
  }

  /** `Match` finds exactly the names the pattern describes. */
  lemma MatchMeans(s: string)
    ensures Match(s) <==> ContainsVersionedMigration(s)
  {
    if Match(s) {
      MatchIsVersioned(s);
    }
    if ContainsVersionedMigration(s) {
      VersionedIsMatch(s);
    }
  }

  lemma MatchIsVersioned(s: string)
    requires Match(s)
    ensures ContainsVersionedMigration(s)
  {
    var i :| 0 <= i <= |s| && MatchesAt(s, i);
    assert OccursAt(s, i, DigitRunEnd(s, i));
  }

  lemma VersionedIsMatch(s: string)
    requires ContainsVersionedMigration(s)
    ensures Match(s)
  {
    var p, q :| OccursAt(s, p, q);
    OccurrenceMatches(s, p, q);
  }

  /** Every "<digits>_migration" in the name is a match where its digits start. */
  lemma OccurrenceMatches(s: string, p: nat, q: nat)
    requires OccursAt(s, p, q)
    ensures MatchesAt(s, p)
  {
    UnderscoreFollowsDigits(s, q);
    RunEndsAt(s, p, q);
    assert IsDigit(s[p..q][0]);
  }

  /** "_migration" starts with a character that is not a digit. */
  lemma UnderscoreFollowsDigits(s: string, j: nat)
    requires HasPrefixAt(s, j, MigrationWord)
    ensures j < |s| && !IsDigit(s[j])
  {
    assert s[j] == s[j..j + |MigrationWord|][0] == '_';
  }

  /** A run of digits followed by a non-digit is the whole run `DigitRunEnd` finds. */
  lemma {:induction false} RunEndsAt(s: string, i: nat, j: nat)
    requires i <= j < |s| && AllDigits(s[i..j]) && !IsDigit(s[j])
    ensures DigitRunEnd(s, i) == j
    decreases j - i
  {
    if i < j {
      assert IsDigit(s[i..j][0]);
      assert s[i + 1..j] == s[i..j][1..];
      RunEndsAt(s, i + 1, j);
    }
  }

  /** `d` occurs at `i`, preceded by no digit and followed by "_migration". */
  predicate CapturedAt(s: string, i: nat, d: string)
  {
    && HasPrefixAt(s, i, d)
    && (i == 0 || !IsDigit(s[i - 1]))
    && HasPrefixAt(s, i + |d|, MigrationWord)
  }

  /** The pattern captures the digits of the leftmost "<digits>_migration" in the name:
      the capture is preceded by no digit, followed by "_migration", and no such
      occurrence starts further left. */
  lemma CaptureIsLeftmost(s: string, d: string)
    requires FindSubmatch(s) == Some(d)
    ensures exists i :: CapturedAt(s, i, d) && forall p, q :: OccursAt(s, p, q) ==> i <= p
  {
    var i :| 0 <= i <= |s| && MatchesAt(s, i) && d == s[i..DigitRunEnd(s, i)]
             && forall k :: 0 <= k < i ==> !MatchesAt(s, k);
    if i > 0 && IsDigit(s[i - 1]) {
      MatchExtendsLeft(s, i);
    } else {
      assert CapturedAt(s, i, d);
      forall p, q | OccursAt(s, p, q)
        ensures i <= p
      {
        OccurrenceMatches(s, p, q);
      }
    }
  }

  /** A match that a digit precedes also matches one position earlier. */
  lemma MatchExtendsLeft(s: string, i: nat)
    requires 0 < i <= |s| && IsDigit(s[i - 1]) && MatchesAt(s, i)
    ensures MatchesAt(s, i - 1)
  {
  }

  /** `lo.Filter(paths, pathRE.Match)`: the matching names, in their listing order. */
  function FilterMatching(names: seq<string>): (r: seq<string>)
    ensures forall x :: x in r <==> x in names && Match(x)
    ensures |r| <= |names|
  {
    if names == [] then []
    else
      var rest := FilterMatching(names[..|names| - 1]);
      var last := names[|names| - 1];
      assert names == names[..|names| - 1] + [last];
      if Match(last) then rest + [last] else rest
  }

  /** Every adjacent pair is in Go's string order. */
  ghost predicate Sorted(s: seq<string>)
  {
    forall k :: 0 < k < |s| ==> LessEq(s[k - 1], s[k])
  }

  /** The last element of a sorted sequence is at least every element. */
  lemma {:induction false} SortedLastIsGreatest(s: seq<string>, k: nat)
    requires Sorted(s) && k < |s|
    ensures LessEq(s[k], s[|s| - 1])
    decreases |s| - k
  {
    if k < |s| - 1 {
      SortedLastIsGreatest(s, k + 1);
      if s[k] != s[k + 1] && s[k + 1] != s[|s| - 1] {
        LessTransitive(s[k], s[k + 1], s[|s| - 1]);
      }
    }
  }

  method Swap(a: array<string>, i: nat, j: nat)
    requires i < a.Length && j < a.Length
    modifies a
    ensures a[i] == old(a[j]) && a[j] == old(a[i])
    ensures forall m :: 0 <= m < a.Length && m != i && m != j ==> a[m] == old(a[m])
    ensures multiset(a[..]) == old(multiset(a[..]))
  {
    a[i], a[j] := a[j], a[i];
  }

  /** `sort.Slice(paths, byName)`: sorts the names in place, in Go's string order. */
  method SortByName(a: array<string>)
    modifies a
    ensures Sorted(a[..])
    ensures multiset(a[..]) == old(multiset(a[..]))
  {
    var i := 0;
    while i < a.Length
      invariant 0 <= i <= a.Length
      invariant forall k :: 0 < k < i ==> LessEq(a[k - 1], a[k])
      invariant multiset(a[..]) == old(multiset(a[..]))
    {
      var j := i;
      while j > 0 && Less(a[j], a[j - 1])
        invariant 0 <= j <= i
        invariant forall k :: 0 < k <= i && k != j ==> LessEq(a[k - 1], a[k])
        invariant 0 < j < i ==> LessEq(a[j - 1], a[j + 1])
        invariant multiset(a[..]) == old(multiset(a[..]))
      {
        Swap(a, j - 1, j);
        j := j - 1;
      }
      if j > 0 {
        LessTotal(a[j - 1], a[j]);
      }
      i := i + 1;
    }
  }

  /** The greatest name in Go's string order. */
  function Greatest(names: seq<string>): (g: string)
    requires names != []
    ensures g in names
  {
    if |names| == 1 then names[0]
    else
      var g := Greatest(names[..|names| - 1]);
      if Less(g, names[|names| - 1]) then names[|names| - 1] else g
  }

  lemma {:induction false} GreatestIsGreatest(names: seq<string>, x: string)
    requires x in names
    ensures LessEq(x, Greatest(names))
  {
    if |names| > 1 {
      var init := names[..|names| - 1];
      var last := names[|names| - 1];
      var g := Greatest(init);
      if x in init {
        GreatestIsGreatest(init, x);
        if Less(g, last) && x != g {
          LessTransitive(x, g, last);
        }
      } else {
        assert x == last;
        if !Less(g, last) {
          LessTotal(g, last);
        }
      }
    }
  }

  /** Two names each at least the other are the same name. */
  lemma LessEqAntisymmetric(a: string, b: string)
    requires LessEq(a, b) && LessEq(b, a)
    ensures a == b
  {
    if a != b {
      LessAsymmetric(a, b);
    }
  }

  /** The version `LatestMigrationVersion` reports: the captured digits of the greatest
      matching name, read by `strconv.Atoi`; a listing error is wrapped. */
  function LatestVersion(listing: Result<seq<string>>): (r: Result<int>)
    requires listing.Ok? ==> FilterMatching(listing.value) != []
    ensures listing.Err? ==> r == Err(Wrap(listing.error, "problem listing paths"))
  {
    match listing
    case Err(e) => Err(Wrap(e, "problem listing paths"))
    case Ok(names) =>
      var latest := Greatest(FilterMatching(names));
      Atoi(FindSubmatch(latest).value)
  }

  /** The version is the value of the digits captured in the chosen name when it fits in
      an `int`; otherwise the result is the range error of `strconv.Atoi`. */
  lemma VersionIsCapturedValue(names: seq<string>)
    requires FilterMatching(names) != []
    ensures var d := FindSubmatch(Greatest(FilterMatching(names)));
      && d.Some? && d.value != [] && AllDigits(d.value)
      && (LatestVersion(Ok(names)).Ok? <==> Value(d.value) <= MaxInt64)
      && (LatestVersion(Ok(names)).Ok? ==> LatestVersion(Ok(names)).value == Value(d.value))
      && (LatestVersion(Ok(names)).Err? ==>
            Text(LatestVersion(Ok(names)).error) == "strconv.Atoi: parsing \"" + d.value + "\": value out of range")
  {
    var latest := Greatest(FilterMatching(names));
    assert latest in FilterMatching(names);
  }

  /** The chosen name is a matching name that no other matching name exceeds. */
  lemma LatestIsGreatestMatching(names: seq<string>, x: string)
    requires FilterMatching(names) != [] && x in names && Match(x)
    ensures var latest := Greatest(FilterMatching(names));
      latest in names && Match(latest) && LessEq(x, latest)
  {
    GreatestIsGreatest(FilterMatching(names), x);
  }

  /** The order in which the directory listing returns the names does not matter. */
  lemma LatestVersionIgnoresOrder(names1: seq<string>, names2: seq<string>)
    requires forall x :: x in names1 <==> x in names2
    requires FilterMatching(names1) != []
    ensures FilterMatching(names2) != []
    ensures LatestVersion(Ok(names1)) == LatestVersion(Ok(names2))
  {
    var g1 := Greatest(FilterMatching(names1));
    assert g1 in FilterMatching(names2);
    var g2 := Greatest(FilterMatching(names2));
    GreatestIsGreatest(FilterMatching(names2), g1);
    GreatestIsGreatest(FilterMatching(names1), g2);
    LessEqAntisymmetric(g1, g2);
  }

  /** After sorting, the last name is the greatest one. */
  lemma SortedEndsWithGreatest(sorted: seq<string>, names: seq<string>)
    requires names != [] && Sorted(sorted) && multiset(sorted) == multiset(names)
    ensures |sorted| == |names| && sorted[|sorted| - 1] == Greatest(names)
  {
    assert |sorted| == |multiset(sorted)| == |names|;
    var last := sorted[|sorted| - 1];
    assert last in multiset(names);
    GreatestIsGreatest(names, last);
    assert Greatest(names) in multiset(sorted);
    var k :| 0 <= k < |sorted| && sorted[k] == Greatest(names);
    SortedLastIsGreatest(sorted, k);
    LessEqAntisymmetric(last, Greatest(names));
  }

  /** `LatestMigrationVersion`: filter the listing, sort it in place, take the last name
      and read its version. With no matching name the source indexes `paths[-1]` and
      panics, so a matching name is required. */
  method LatestMigrationVersion(listing: Result<seq<string>>) returns (r: Result<int>)
    requires listing.Ok? ==> FilterMatching(listing.value) != []
    ensures r == LatestVersion(listing)
  {
    if listing.Err? {
      return Err(Wrap(listing.error, "problem listing paths"));
    }
    var paths := FilterMatching(listing.value);
    var a := new string[|paths|](i requires 0 <= i < |paths| => paths[i]);
    assert a[..] == paths;
    SortByName(a);
    LastOfSortedGivesVersion(listing.value, a[..]);
    var latest := a[a.Length - 1];
    var version := FindSubmatch(latest).value;
    r := Atoi(version);
  }

  /** The last of the sorted matching names carries the version `LatestVersion` reports. */
  lemma LastOfSortedGivesVersion(names: seq<string>, sorted: seq<string>)
    requires FilterMatching(names) != [] && Sorted(sorted) && multiset(sorted) == multiset(FilterMatching(names))
    ensures sorted != [] && FindSubmatch(sorted[|sorted| - 1]).Some?
    ensures var d := FindSubmatch(sorted[|sorted| - 1]).value;
      d != [] && AllDigits(d) && Atoi(d) == LatestVersion(Ok(names))
  {
    SortedEndsWithGreatest(sorted, FilterMatching(names));
    assert sorted[|sorted| - 1] in FilterMatching(names);
  }

  /** Names are compared as strings, not as numbers: "9_migration.sql" comes after
      "10_migration.sql", so version 9 is reported although 10 is present. */
  lemma StringOrderNotNumeric()
    ensures FilterMatching(["10_migration.sql", "9_migration.sql"]) != []
    ensures LatestVersion(Ok(["10_migration.sql", "9_migration.sql"])) == Ok(9)
  {
    var n10, n9 := "10_migration.sql", "9_migration.sql";
    TenMatches();
    NineCaptured();
    KeepsBoth(n10, n9);
    assert Less(n10, n9);
    GreatestOfTwo(n10, n9);
    AtoiNine();
  }

  lemma AtoiNine()
    ensures Atoi("9") == Ok(9)
  {
    assert "9"[..0] == "";
  }

  lemma KeepsBoth(a: string, b: string)
    requires Match(a) && Match(b)
    ensures FilterMatching([a, b]) == [a, b]
  {
    assert [a, b][..1] == [a];
    assert [a][..0] == [];
  }

  lemma GreatestOfTwo(a: string, b: string)
    requires Less(a, b)
    ensures Greatest([a, b]) == b
  {
    assert [a, b][..1] == [a];
  }

  lemma TenMatches()
    ensures Match("10_migration.sql")
  {
    var n := "10_migration.sql";
    assert !IsDigit(n[2]);
    assert DigitRunEnd(n, 0) == 2 by {
      assert DigitRunEnd(n, 2) == 2;
    }
    assert n[2..12] == MigrationWord;
    assert MatchesAt(n, 0);
  }

  lemma NineCaptured()
    ensures FindSubmatch("9_migration.sql") == Some("9")
  {
    var n := "9_migration.sql";
    assert !IsDigit(n[1]);
    assert DigitRunEnd(n, 0) == 1 by {
      assert DigitRunEnd(n, 1) == 1;
    }
    assert n[1..11] == MigrationWord;
    assert MatchesAt(n, 0);
    assert n[0..1] == "9";
  }
}
