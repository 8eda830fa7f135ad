/** Two pieces of the repository checker script: following GitHub's pagination through
    the `Link` response header (a simplified form of section 3 of RFC 8288), and listing
    the repository admins who are not organisation owners. */
module RepoChecker {
  import opened Errors

  /** `\s` in Go's regular expressions: tab, newline, form feed, carriage return, space. */
  predicate IsSpace(c: char)
  {
    c == '\t' || c == '\n' || c == '\U{000C}' || c == '\r' || c == ' '
  }

  predicate AllSpace(w: string)
  {
    forall k :: 0 <= k < |w| ==> IsSpace(w[k])
  }

  /** The first position at or after `start` that holds `c`, or `|s|` when none does. */
  function IndexOfFrom(s: string, start: nat, c: char): (j: nat)
    requires start <= |s|
    ensures start <= j <= |s|
    ensures j < |s| ==> s[j] == c
    decreases |s| - start
  {
    if start == |s| || s[start] == c then start else IndexOfFrom(s, start + 1, c)
  }

  /** No position `IndexOfFrom` passes over holds `c`. */
  lemma {:induction false} IndexOfFromSkips(s: string, start: nat, c: char)
    requires start <= |s|
    ensures forall k :: start <= k < IndexOfFrom(s, start, c) ==> s[k] != c
    decreases |s| - start
  {
    if start < |s| && s[start] != c {
      IndexOfFromSkips(s, start + 1, c);
    }
  }

  /** The end of the run of `\s` characters that starts at `start`. */
  function SpaceEnd(s: string, start: nat): (j: nat)
    requires start <= |s|
    ensures start <= j <= |s|
    ensures j < |s| ==> !IsSpace(s[j])
    decreases |s| - start
  {
    if start < |s| && IsSpace(s[start]) then SpaceEnd(s, start + 1) else start
  }

  /** Every position `SpaceEnd` passes over holds a space. */
  lemma {:induction false} SpaceEndSpans(s: string, start: nat)
    requires start <= |s|
    ensures forall k :: start <= k < SpaceEnd(s, start) ==> IsSpace(s[k])
    decreases |s| - start
  {
    if start < |s| && IsSpace(s[start]) {
      SpaceEndSpans(s, start + 1);
    }
  }

  /** One match of `linkRE`: the two capture groups and where the match ends. */
  datatype LinkMatch = LinkMatch(url: string, rel: string, end: nat)

  /** `linkRE` (`<([^>]+)>;\s*rel="([^"]+)"`) tried at position `i`. Each part of the
      pattern can match in one way only here: `[^>]+` runs to the first `>`, `\s*` takes
      every space, and `[^"]+` runs to the first `"`. */
  function MatchAt(s: string, i: nat): (r: Option<LinkMatch>)
    requires i <= |s|
    ensures r.Some? ==> i < r.value.end <= |s|
  {
    if i < |s| && s[i] == '<' then MatchFrom(s, i, IndexOfFrom(s, i + 1, '>')) else None
  }

  /** The rest of the pattern once the first `>` after the `<` at `i` is at `close`. */
  function MatchFrom(s: string, i: nat, close: nat): (r: Option<LinkMatch>)
    requires i < close <= |s|
    ensures r.Some? ==> close + 2 < r.value.end <= |s|
  {
    if close == i + 1 || close + 1 >= |s| || s[close + 1] != ';' then None
    else MatchRel(s, i, close, SpaceEnd(s, close + 2))
  }

  /** The rest of the pattern once the spaces after `>;` end at `relStart`. */
  function MatchRel(s: string, i: nat, close: nat, relStart: nat): (r: Option<LinkMatch>)
    requires i < close && close + 2 <= relStart <= |s|
    ensures r.Some? ==> relStart + 5 < r.value.end <= |s|
  {
    if !RelAt(s, relStart) then None
    else
      var quote := IndexOfFrom(s, relStart + 5, '"');
      if quote == relStart + 5 || quote == |s| then None
      else Some(LinkMatch(s[i + 1..close], s[relStart + 5..quote], quote + 1))
  }

  /** `rel="` is written at `j`. */
  predicate RelAt(s: string, j: nat)
  {
    j + 5 <= |s| && s[j] == 'r' && s[j + 1] == 'e' && s[j + 2] == 'l' && s[j + 3] == '=' && s[j + 4] == '"'
  }

  lemma RelAtMeans(s: string, j: nat)
    requires j + 5 <= |s|
    ensures RelAt(s, j) <==> s[j..j + 5] == "rel=\""
  {
    if RelAt(s, j) {
      assert s[j..j + 5] == "rel=\"";
    }
  }

  /** The text of one header entry: `<url>;` then spaces, then `rel="value"`. */
  function Entry(url: string, space: string, rel: string): (e: string)
    ensures |e| == |url| + |space| + |rel| + 9
  {
    "<" + url + ">;" + space + "rel=\"" + rel + "\""
  }

  /** The parts the pattern accepts: a non-empty URL without `>`, spaces only, and a
      non-empty rel value without `"`. */
  predicate WellFormed(url: string, space: string, rel: string)
  {
    url != [] && '>' !in url && AllSpace(space) && rel != [] && '"' !in rel
  }

  /** Every well-formed entry written at `i` is matched there, with its URL and rel value
      captured. */
  lemma EntryMatches(s: string, i: nat, url: string, space: string, rel: string)
    requires WellFormed(url, space, rel)
    requires i + |Entry(url, space, rel)| <= |s| && s[i..i + |Entry(url, space, rel)|] == Entry(url, space, rel)
    ensures MatchAt(s, i) == Some(LinkMatch(url, rel, i + |Entry(url, space, rel)|))
  {
    var close := i + 1 + |url|;
    var relStart := close + 2 + |space|;
    var quote := relStart + 5 + |rel|;
    EntryLayout(s, i, url, space, rel);
    PiecesMatch(s, i, close, relStart, quote);
  }

  /** What the pattern looks at in a well-formed entry written at `i`. */
  lemma EntryLayout(s: string, i: nat, url: string, space: string, rel: string)
    requires WellFormed(url, space, rel)
    requires i + |Entry(url, space, rel)| <= |s| && s[i..i + |Entry(url, space, rel)|] == Entry(url, space, rel)
    ensures var close := i + 1 + |url|; var relStart := close + 2 + |space|; var quote := relStart + 5 + |rel|;
      && i + 1 < close && close + 2 <= relStart && relStart + 5 < quote < |s|
      && i + |Entry(url, space, rel)| == quote + 1
      && s[i] == '<' && s[close] == '>' && s[close + 1] == ';'
      && (forall k :: i + 1 <= k < close ==> s[k] != '>')
      && (forall k :: close + 2 <= k < relStart ==> IsSpace(s[k]))
      && RelAt(s, relStart)
      && (forall k :: relStart + 5 <= k < quote ==> s[k] != '"')
      && s[quote] == '"'
      && s[i + 1..close] == url && s[relStart + 5..quote] == rel
  {
    var close := i + 1 + |url|;
    var relStart := close + 2 + |space|;
    var quote := relStart + 5 + |rel|;
    EntryPieces(s, i, url, space, rel);
    RelAtMeans(s, relStart);
    Excludes(s, i + 1, close, '>');
    Spaces(s, close + 2, relStart);
    Excludes(s, relStart + 5, quote, '"');
  }

  /** Where each part of an entry written at `i` sits in `s`. */
  lemma EntryPieces(s: string, i: nat, url: string, space: string, rel: string)
    requires i + |Entry(url, space, rel)| <= |s| && s[i..i + |Entry(url, space, rel)|] == Entry(url, space, rel)
    ensures var close := i + 1 + |url|; var relStart := close + 2 + |space|; var quote := relStart + 5 + |rel|;
      && quote < |s| && i + |Entry(url, space, rel)| == quote + 1
      && s[i] == '<' && s[i + 1..close] == url && s[close] == '>' && s[close + 1] == ';'
      && s[close + 2..relStart] == space && s[relStart..relStart + 5] == "rel=\""
      && s[relStart + 5..quote] == rel && s[quote] == '"'
  {
    var e1 := "<" + url;
    var e2 := e1 + ">;";
    var e3 := e2 + space;
    var e4 := e3 + "rel=\"";
    var e5 := e4 + rel;
    var close := i + 1 + |url|;
    var relStart := close + 2 + |space|;
    var quote := relStart + 5 + |rel|;
    Peel(s, i, e5, "\"");
    Peel(s, i, e4, rel);
    Peel(s, i, e3, "rel=\"");
    Peel(s, i, e2, space);
    Peel(s, i, e1, ">;");
    Peel(s, i, "<", url);
    assert s[i] == s[i..i + 1][0];
    assert s[close] == s[close..close + 2][0] && s[close + 1] == s[close..close + 2][1];
    assert s[quote] == s[quote..quote + 1][0];
  }

  /** Cutting a slice that spells `x + y` after `|x|` characters gives `x` and `y`. */
  lemma Peel(s: string, a: nat, x: string, y: string)
    requires a + |x| + |y| <= |s| && s[a..a + |x| + |y|] == x + y
    ensures s[a..a + |x|] == x && s[a + |x|..a + |x| + |y|] == y
  {
    assert s[a..a + |x|] == s[a..a + |x| + |y|][..|x|];
    assert s[a + |x|..a + |x| + |y|] == s[a..a + |x| + |y|][|x|..];
  }

  /** Slices that meet at `b` join into one. */
  lemma SliceJoin(s: string, a: nat, b: nat, c: nat)
    requires a <= b <= c <= |s|
    ensures s[a..c] == s[a..b] + s[b..c]
  {
    assert s[a..c] == s[a..b] + s[b..c];
  }

  /** The pieces of an entry in place make `MatchAt` find it. */
  lemma PiecesMatch(s: string, i: nat, close: nat, relStart: nat, quote: nat)
    requires i + 1 < close && close + 2 <= relStart && relStart + 5 < quote < |s|
    requires s[i] == '<' && s[close] == '>' && s[close + 1] == ';'
    requires forall k :: i + 1 <= k < close ==> s[k] != '>'
    requires forall k :: close + 2 <= k < relStart ==> IsSpace(s[k])
    requires RelAt(s, relStart)
    requires forall k :: relStart + 5 <= k < quote ==> s[k] != '"'
    requires s[quote] == '"'
    ensures MatchAt(s, i) == Some(LinkMatch(s[i + 1..close], s[relStart + 5..quote], quote + 1))
  {
    IndexOfFromStops(s, i + 1, close, '>');
    SpaceEndStops(s, close + 2, relStart);
    IndexOfFromStops(s, relStart + 5, quote, '"');
  }

  lemma {:induction false} IndexOfFromStops(s: string, start: nat, j: nat, c: char)
    requires start <= j < |s| && s[j] == c && forall k :: start <= k < j ==> s[k] != c
    ensures IndexOfFrom(s, start, c) == j
    decreases j - start
  {
    if start < j {
      IndexOfFromStops(s, start + 1, j, c);
    }
  }

  lemma {:induction false} SpaceEndStops(s: string, start: nat, j: nat)
    requires start <= j < |s| && !IsSpace(s[j]) && forall k :: start <= k < j ==> IsSpace(s[k])
    ensures SpaceEnd(s, start) == j
    decreases j - start
  {
    if start < j {
      SpaceEndStops(s, start + 1, j);
    }
  }

  /** Conversely, whatever the pattern matches at `i` is a well-formed entry written there. */
  lemma MatchIsEntry(s: string, i: nat)
    requires i <= |s| && MatchAt(s, i).Some?
    ensures var m := MatchAt(s, i).value;
      exists space :: WellFormed(m.url, space, m.rel) && m.end == i + |Entry(m.url, space, m.rel)|
                      && s[i..m.end] == Entry(m.url, space, m.rel)
  {
    var close, relStart, quote := MatchFacts(s, i);
    RelAtMeans(s, relStart);
    PiecesAreEntry(s, i, close, relStart, quote);
    Excludes(s, i + 1, close, '>');
    Spaces(s, close + 2, relStart);
    Excludes(s, relStart + 5, quote, '"');
    assert WellFormed(s[i + 1..close], s[close + 2..relStart], s[relStart + 5..quote]);
  }

  /** What `MatchAt` checked when it found a match: the positions of the delimiters and
      what lies between them. */
  lemma MatchFacts(s: string, i: nat) returns (close: nat, relStart: nat, quote: nat)
    requires i <= |s| && MatchAt(s, i).Some?
    ensures i + 1 < close && close + 2 <= relStart && relStart + 5 < quote < |s|
    ensures s[i] == '<' && s[close] == '>' && s[close + 1] == ';'
    ensures RelAt(s, relStart) && s[quote] == '"'
    ensures forall k :: i + 1 <= k < close ==> s[k] != '>'
    ensures forall k :: close + 2 <= k < relStart ==> IsSpace(s[k])
    ensures forall k :: relStart + 5 <= k < quote ==> s[k] != '"'
    ensures MatchAt(s, i).value == LinkMatch(s[i + 1..close], s[relStart + 5..quote], quote + 1)
  {
    close := IndexOfFrom(s, i + 1, '>');
    relStart := SpaceEnd(s, close + 2);
    quote := IndexOfFrom(s, relStart + 5, '"');
    IndexOfFromSkips(s, i + 1, '>');
    SpaceEndSpans(s, close + 2);
    IndexOfFromSkips(s, relStart + 5, '"');
  }

  /** A slice avoids `c` exactly when every position in its range does. */
  lemma Excludes(s: string, a: nat, b: nat, c: char)
    requires a <= b <= |s|
    ensures c !in s[a..b] <==> forall k :: a <= k < b ==> s[k] != c
  {
    assert forall k :: a <= k < b ==> s[k] == s[a..b][k - a];
  }

  /** A slice is all spaces exactly when every position in its range holds one. */
  lemma Spaces(s: string, a: nat, b: nat)
    requires a <= b <= |s|
    ensures AllSpace(s[a..b]) <==> forall k :: a <= k < b ==> IsSpace(s[k])
  {
    assert forall k :: a <= k < b ==> s[k] == s[a..b][k - a];
  }

  /** The text from `i` to the closing quote spells the entry made of the pieces between
      the delimiters. */
  lemma PiecesAreEntry(s: string, i: nat, close: nat, relStart: nat, quote: nat)
    requires i < close && close + 2 <= relStart && relStart + 5 <= quote < |s|
    requires s[i] == '<' && s[close] == '>' && s[close + 1] == ';'
    requires s[relStart..relStart + 5] == "rel=\"" && s[quote] == '"'
    ensures s[i..quote + 1] == Entry(s[i + 1..close], s[close + 2..relStart], s[relStart + 5..quote])
  {
    SliceJoin(s, i, quote, quote + 1);
    SliceJoin(s, i, relStart + 5, quote);
    SliceJoin(s, i, relStart, relStart + 5);
    SliceJoin(s, i, close + 2, relStart);
    SliceJoin(s, i, close, close + 2);
    SliceJoin(s, i, i + 1, close);
    assert s[i..i + 1] == "<";
    assert s[close..close + 2] == ">;";
    assert s[quote..quote + 1] == "\"";
  }

  /** `linkRE.FindAllStringSubmatch(s, -1)` from position `pos`: successive leftmost
      matches that do not overlap. */
  function FindAllFrom(s: string, pos: nat): (ms: seq<LinkMatch>)
    requires pos <= |s|
    decreases |s| - pos
  {
    if pos == |s| then []
    else
      match MatchAt(s, pos)
      case Some(m) => [m] + FindAllFrom(s, m.end)
      case None => FindAllFrom(s, pos + 1)
  }

  function FindAll(s: string): (ms: seq<LinkMatch>)
  {
    FindAllFrom(s, 0)
  }

  /** The scan takes the leftmost match at or after `pos`, if there is one, and carries on
      right after it. */
  lemma {:induction false} FindAllIsLeftmost(s: string, pos: nat)
    requires pos <= |s|
    ensures FindAllFrom(s, pos) == [] <==> forall j :: pos <= j < |s| ==> MatchAt(s, j).None?
    ensures var ms := FindAllFrom(s, pos);
      ms != [] ==>
        exists j :: pos <= j < |s| && MatchAt(s, j) == Some(ms[0])
                    && (forall k :: pos <= k < j ==> MatchAt(s, k).None?)
                    && ms[1..] == FindAllFrom(s, ms[0].end)
    decreases |s| - pos
  {
    if pos < |s| {
      match MatchAt(s, pos)
      case Some(m) =>
        var rest := FindAllFrom(s, m.end);
        var ms := [m] + rest;
        FindAllSome(s, pos, m);
        assert FindAllFrom(s, pos) == ms && ms[0] == m && ms[1..] == rest;
        assert MatchAt(s, pos) == Some(ms[0]);
      case None =>
        var ms := FindAllFrom(s, pos + 1);
        FindAllNone(s, pos);
        FindAllIsLeftmost(s, pos + 1);
        if ms != [] {
          var j :| pos + 1 <= j < |s| && MatchAt(s, j) == Some(ms[0])
                   && (forall k :: pos + 1 <= k < j ==> MatchAt(s, k).None?)
                   && ms[1..] == FindAllFrom(s, ms[0].end);
          assert forall k :: pos <= k < j ==> MatchAt(s, k).None?;
        }
    }
  }

  /** One entry of a `Link` header, with the spaces written after its `;`. */
  datatype LinkValue = LinkValue(url: string, space: string, rel: string)

  /** A `Link` header listing the entries, separated by ", " as GitHub writes them. */
  function Header(vs: seq<LinkValue>): (h: string)
    ensures h == "" <==> vs == []
    decreases |vs|, 0
  {
    if vs == [] then "" else Entry(vs[0].url, vs[0].space, vs[0].rel) + Separated(vs[1..])
  }

  /** The entries after the first, each preceded by ", ". */
  function Separated(ws: seq<LinkValue>): (h: string)
    ensures h == "" <==> ws == []
    decreases |ws|, 1
  {
    if ws == [] then "" else ", " + Header(ws)
  }

  predicate AllWellFormed(vs: seq<LinkValue>)
  {
    forall k :: 0 <= k < |vs| ==> WellFormed(vs[k].url, vs[k].space, vs[k].rel)
  }

  /** The URL and rel value of each entry, in order. */
  function Links(vs: seq<LinkValue>): (ls: seq<(string, string)>)
    ensures |ls| == |vs|
  {
    if vs == [] then [] else [(vs[0].url, vs[0].rel)] + Links(vs[1..])
  }

  /** The two capture groups of each match, in order. */
  function Captures(ms: seq<LinkMatch>): (cs: seq<(string, string)>)
    ensures |cs| == |ms|
  {
    if ms == [] then [] else [(ms[0].url, ms[0].rel)] + Captures(ms[1..])
  }

  /** The pattern reads back every entry of a header of well-formed entries, in order. */
  lemma {:induction false} HeaderLinks(vs: seq<LinkValue>)
    requires AllWellFormed(vs)
    ensures Captures(FindAll(Header(vs))) == Links(vs)
    decreases |vs|, 0
  {
    if vs == [] {
      assert FindAll(Header(vs)) == [];
    } else {
      assert WellFormed(vs[0].url, vs[0].space, vs[0].rel);
      FirstEntryCaptured(vs[0], Separated(vs[1..]));
      WellFormedTail(vs);
      SeparatedLinks(vs[1..]);
    }
  }

  lemma {:induction false} SeparatedLinks(ws: seq<LinkValue>)
    requires AllWellFormed(ws)
    ensures Captures(FindAll(Separated(ws))) == Links(ws)
    decreases |ws|, 1
  {
    if ws == [] {
      assert FindAll(Separated(ws)) == [];
    } else {
      SeparatorSkipped(Header(ws));
      HeaderLinks(ws);
    }
  }

  /** The ", " between entries is never part of a match. */
  lemma SeparatorSkipped(h: string)
    ensures Captures(FindAll(", " + h)) == Captures(FindAll(h))
  {
    var s := ", " + h;
    assert s[0] == ',' && s[1] == ' ';
    assert MatchAt(s, 0) == None && MatchAt(s, 1) == None;
    assert s[2..] == h;
    CapturesSkip(s, 0);
    CapturesSkip(s, 1);
    FindAllShift(s, 2, 0);
  }

  /** The first entry of a header is the first thing the pattern captures, and the rest
      of the header is read as if it stood alone. */
  lemma FirstEntryCaptured(v: LinkValue, rest: string)
    requires WellFormed(v.url, v.space, v.rel)
    ensures Captures(FindAll(Entry(v.url, v.space, v.rel) + rest)) == [(v.url, v.rel)] + Captures(FindAll(rest))
  {
    var e := Entry(v.url, v.space, v.rel);
    var s := e + rest;
    assert s[0..|e|] == e && s[|e|..] == rest;
    EntryMatches(s, 0, v.url, v.space, v.rel);
    CapturesStep(s, 0, LinkMatch(v.url, v.rel, |e|));
    FindAllShift(s, |e|, 0);
  }

  /** What a match found in a suffix looks like in the whole text: the same captures,
      ending `n` characters later. */
  function Shifted(r: Option<LinkMatch>, n: nat): (q: Option<LinkMatch>)
    ensures q.Some? <==> r.Some?
    ensures q.Some? ==> q.value.url == r.value.url && q.value.rel == r.value.rel && q.value.end == n + r.value.end
  {
    match r
    case None => None
    case Some(m) => Some(LinkMatch(m.url, m.rel, n + m.end))
  }

  /** The scan from `n + k` reads what the scan of the suffix from `n` reads from `k`:
      text in front of a position does not change what is matched after it. */
  lemma {:induction false} FindAllShift(s: string, n: nat, k: nat)
    requires n + k <= |s|
    ensures Captures(FindAllFrom(s, n + k)) == Captures(FindAllFrom(s[n..], k))
    decreases |s| - n - k, 1
  {
    if n + k == |s| {
      assert FindAllFrom(s, n + k) == [] && FindAllFrom(s[n..], k) == [];
    } else if MatchAt(s[n..], k).Some? {
      ShiftAfterMatch(s, n, k, MatchAt(s[n..], k).value);
    } else {
      ShiftPastPosition(s, n, k);
    }
  }

  lemma {:induction false} ShiftAfterMatch(s: string, n: nat, k: nat, m: LinkMatch)
    requires n + k < |s| && MatchAt(s[n..], k) == Some(m)
    ensures Captures(FindAllFrom(s, n + k)) == Captures(FindAllFrom(s[n..], k))
    decreases |s| - n - k, 0
  {
    MatchAtShift(s, n, k);
    CapturesStep(s, n + k, LinkMatch(m.url, m.rel, n + m.end));
    CapturesStep(s[n..], k, m);
    FindAllShift(s, n, m.end);
  }

  lemma {:induction false} ShiftPastPosition(s: string, n: nat, k: nat)
    requires n + k < |s| && MatchAt(s[n..], k).None?
    ensures Captures(FindAllFrom(s, n + k)) == Captures(FindAllFrom(s[n..], k))
    decreases |s| - n - k, 0
  {
    MatchAtShift(s, n, k);
    CapturesSkip(s[n..], k);
    CapturesSkip(s, n + k);
    FindAllShift(s, n, k + 1);
  }

  /** No match at `pos`: the captures of the scan are those from the next position. */
  lemma CapturesSkip(s: string, pos: nat)
    requires pos < |s| && MatchAt(s, pos).None?
    ensures Captures(FindAllFrom(s, pos)) == Captures(FindAllFrom(s, pos + 1))
  {
    FindAllNone(s, pos);
  }

  /** A match at `pos` gives the first captures of the scan from `pos`. */
  lemma CapturesStep(s: string, pos: nat, m: LinkMatch)
    requires pos < |s| && MatchAt(s, pos) == Some(m)
    ensures Captures(FindAllFrom(s, pos)) == [(m.url, m.rel)] + Captures(FindAllFrom(s, m.end))
  {
    FindAllSome(s, pos, m);
    var all := FindAllFrom(s, pos);
    assert all[1..] == FindAllFrom(s, m.end);
  }

  /** The pattern matches in the whole text exactly where it matches in a suffix. */
  lemma MatchAtShift(s: string, n: nat, k: nat)
    requires n + k < |s|
    ensures MatchAt(s, n + k) == Shifted(MatchAt(s[n..], k), n)
  {
    var t := s[n..];
    assert s[n + k] == t[k];
    if t[k] == '<' {
      var close := IndexOfFrom(t, k + 1, '>');
      IndexOfFromShift(s, n, k + 1, '>');
      assert MatchAt(t, k) == MatchFrom(t, k, close);
      assert MatchAt(s, n + k) == MatchFrom(s, n + k, n + close);
      MatchFromShift(s, n, k, close);
    } else {
      assert MatchAt(t, k) == None && MatchAt(s, n + k) == None;
    }
  }

  lemma MatchFromShift(s: string, n: nat, i: nat, close: nat)
    requires n <= |s| && i < close <= |s| - n
    ensures MatchFrom(s, n + i, n + close) == Shifted(MatchFrom(s[n..], i, close), n)
  {
    var t := s[n..];
    if close + 1 < |t| {
      assert s[n + close + 1] == t[close + 1];
      if close != i + 1 && t[close + 1] == ';' {
        SpaceEndShift(s, n, close + 2);
        MatchRelShift(s, n, i, close, SpaceEnd(t, close + 2));
      }
    }
  }

  lemma MatchRelShift(s: string, n: nat, i: nat, close: nat, relStart: nat)
    requires n <= |s| && i < close && close + 2 <= relStart <= |s| - n
    ensures MatchRel(s, n + i, n + close, n + relStart) == Shifted(MatchRel(s[n..], i, close, relStart), n)
  {
    var t := s[n..];
    RelAtShift(s, n, relStart);
    if RelAt(t, relStart) {
      var quote := IndexOfFrom(t, relStart + 5, '"');
      IndexOfFromShift(s, n, relStart + 5, '"');
      if quote != relStart + 5 && quote != |t| {
        assert s[n + i + 1..n + close] == t[i + 1..close];
        assert s[n + relStart + 5..n + quote] == t[relStart + 5..quote];
      }
    }
  }

  lemma {:induction false} IndexOfFromShift(s: string, n: nat, a: nat, c: char)
    requires n + a <= |s|
    ensures IndexOfFrom(s, n + a, c) == n + IndexOfFrom(s[n..], a, c)
    decreases |s| - n - a
  {
    if n + a < |s| {
      assert s[n + a] == s[n..][a];
      if s[n + a] != c {
        IndexOfFromShift(s, n, a + 1, c);
      }
    }
  }

  lemma {:induction false} SpaceEndShift(s: string, n: nat, a: nat)
    requires n + a <= |s|
    ensures SpaceEnd(s, n + a) == n + SpaceEnd(s[n..], a)
    decreases |s| - n - a
  {
    if n + a < |s| {
      assert s[n + a] == s[n..][a];
      if IsSpace(s[n + a]) {
        SpaceEndShift(s, n, a + 1);
      }
    }
  }

  lemma RelAtShift(s: string, n: nat, j: nat)
    requires n + j <= |s|
    ensures RelAt(s, n + j) == RelAt(s[n..], j)
  {
    if n + j + 5 <= |s| {
      assert forall k :: j <= k < j + 5 ==> s[n + k] == s[n..][k];
    }
  }

  lemma WellFormedTail(vs: seq<LinkValue>)
    requires vs != [] && AllWellFormed(vs)
    ensures AllWellFormed(vs[1..])
  {
    forall k | 0 <= k < |vs| - 1
      ensures WellFormed(vs[1..][k].url, vs[1..][k].space, vs[1..][k].rel)
    {
      assert vs[1..][k] == vs[k + 1];
    }
  }


  /** A match at `pos` is the first one the scan reports. */
  lemma FindAllSome(s: string, pos: nat, m: LinkMatch)
    requires pos < |s| && MatchAt(s, pos) == Some(m)
    ensures FindAllFrom(s, pos) == [m] + FindAllFrom(s, m.end)
  {
  }

  /** No match at `pos`: the scan moves one position on. */
  lemma FindAllNone(s: string, pos: nat)
    requires pos < |s| && MatchAt(s, pos).None?
    ensures FindAllFrom(s, pos) == FindAllFrom(s, pos + 1)
  {
  }


  /** `http.Header.Get(key)`: the first value recorded for the key, or "". */
  function HeaderGet(h: map<string, seq<string>>, key: string): (v: string)
    ensures key in h && h[key] != [] ==> v == h[key][0]
    ensures key !in h || h[key] == [] ==> v == ""
  {
    if key in h && h[key] != [] then h[key][0] else ""
  }

  /** `findNextPage`: the URL of the first `Link` entry whose rel value is exactly "next". */
  method FindNextPage(h: map<string, seq<string>>) returns (url: string, ok: bool)
    ensures var ms := FindAll(HeaderGet(h, "Link"));
      ok ==> exists k :: 0 <= k < |ms| && ms[k].rel == "next" && ms[k].url == url
                         && forall j :: 0 <= j < k ==> ms[j].rel != "next"
    ensures var ms := FindAll(HeaderGet(h, "Link"));
      !ok <==> url == "" && forall k :: 0 <= k < |ms| ==> ms[k].rel != "next"
  {
    var ms := FindAll(HeaderGet(h, "Link"));
    var i := 0;
    while i < |ms|
      invariant 0 <= i <= |ms|
      invariant forall j :: 0 <= j < i ==> ms[j].rel != "next"
    {
      if ms[i].rel == "next" {
        return ms[i].url, true;
      }
      i := i + 1;
    }
    return "", false;
  }

  /** The organisation owners, who are admins of every repository anyway. */
  const Owners: seq<string> := ["drmaples", "chris-kronologic", "v0vanec"]

  /** A repository collaborator as the GitHub API lists it. */
  datatype Collaborator = Collaborator(login: string, userType: string, roleName: string)

  /** A collaborator the checker reports: an admin who is not an owner. */
  predicate IsExtraAdmin(c: Collaborator, owners: seq<string>)
  {
    c.roleName == "admin" && c.login !in owners
  }

  /** The logins of the extra admins, in the order the collaborators were listed. */
  function ExtraAdminsOf(cs: seq<Collaborator>, owners: seq<string>): (r: seq<string>)
    ensures |r| <= |cs|
  {
    if cs == [] then []
    else
      var last := cs[|cs| - 1];
      ExtraAdminsOf(cs[..|cs| - 1], owners) + (if IsExtraAdmin(last, owners) then [last.login] else [])
  }

  /** The filter loop of `getExtraAdmins` over the collaborators already fetched. */
  method GetExtraAdmins(rawData: seq<Collaborator>) returns (extraAdmins: seq<string>)
    ensures extraAdmins == ExtraAdminsOf(rawData, Owners)
    ensures forall x :: x in extraAdmins ==> x !in Owners
  {
    extraAdmins := [];
    var i := 0;
    while i < |rawData|
      invariant 0 <= i <= |rawData|
      invariant extraAdmins == ExtraAdminsOf(rawData[..i], Owners)
    {
      var rd := rawData[i];
      assert rawData[..i + 1][..i] == rawData[..i];
      i := i + 1;
      if rd.roleName != "admin" {
        continue;
      }
      if rd.login in Owners {
        continue;
      }
      extraAdmins := extraAdmins + [rd.login];
    }
    assert rawData[..i] == rawData;
    NoOwnerIsExtraAdmin(rawData, Owners);
  }

  /** A login is reported exactly when some collaborator with that login is an admin and
      not an owner. */
  lemma {:induction false} ExtraAdminsMembership(cs: seq<Collaborator>, owners: seq<string>, x: string)
    ensures x in ExtraAdminsOf(cs, owners) <==> exists c :: c in cs && IsExtraAdmin(c, owners) && c.login == x
  {
    if cs != [] {
      var init := cs[..|cs| - 1];
      ExtraAdminsMembership(init, owners, x);
      assert cs == init + [cs[|cs| - 1]];
    }
  }

  /** No owner is ever reported. */
  lemma NoOwnerIsExtraAdmin(cs: seq<Collaborator>, owners: seq<string>)
    ensures forall x :: x in ExtraAdminsOf(cs, owners) ==> x !in owners
  {
    forall x | x in ExtraAdminsOf(cs, owners)
      ensures x !in owners
    {
      ExtraAdminsMembership(cs, owners, x);
    }
  }

  /** The filter keeps the listing order: filtering two lists one after the other gives the
      two results one after the other. */
  lemma {:induction false} ExtraAdminsAppend(a: seq<Collaborator>, b: seq<Collaborator>, owners: seq<string>)
    ensures ExtraAdminsOf(a + b, owners) == ExtraAdminsOf(a, owners) + ExtraAdminsOf(b, owners)
    decreases |b|
  {
    if b == [] {
      assert a + b == a;
    } else {
      var init := b[..|b| - 1];
      ExtraAdminsAppend(a, init, owners);
      assert (a + b)[..|a + b| - 1] == a + init;
    }
  }

  /** Nothing qualifies exactly when the result is the empty list. */
  lemma NoExtraAdmins(cs: seq<Collaborator>, owners: seq<string>)
    ensures ExtraAdminsOf(cs, owners) == [] <==> forall c :: c in cs ==> !IsExtraAdmin(c, owners)
  {
    if ExtraAdminsOf(cs, owners) != [] {
      ExtraAdminsMembership(cs, owners, ExtraAdminsOf(cs, owners)[0]);
    } else {
      forall c | c in cs
        ensures !IsExtraAdmin(c, owners)
      {
        ExtraAdminsMembership(cs, owners, c.login);
      }
    }
  }
}
