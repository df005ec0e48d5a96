/** The link graph of the knowledge map (components/KnowledgeGraph.tsx): every note is a
    node, every `[[Title]]` marker whose capture equals some note's title is an edge, and
    every node carries the number of edge ends touching it. The force layout, zoom and
    drag are not modelled; the radius, label offset and colours derived from the counts
    are. */
module KnowledgeGraph {
  import opened Types
  import Seqs

  // ---------------------------------------------------------------------------
  // The pattern /\[\[(.*?)\]\]/g

  /** The characters `.` does not match in a JavaScript regular expression. */
  predicate IsLineTerminator(c: char) {
    c == '\n' || c == '\r' || c == '\U{2028}' || c == '\U{2029}'
  }

  /** `[[` stands at index `i`. */
  predicate OpenAt(s: string, i: int) {
    0 <= i && i + 1 < |s| && s[i] == '[' && s[i + 1] == '['
  }

  /** `]]` stands at index `k`. */
  predicate CloseAt(s: string, k: int) {
    0 <= k && k + 1 < |s| && s[k] == ']' && s[k + 1] == ']'
  }

  /** A line terminator stands somewhere in `s[k..j]`. */
  predicate Broken(s: string, k: int, j: int) {
    exists t :: k <= t < j && 0 <= t < |s| && IsLineTerminator(s[t])
  }

  /** The lazy group `(.*?)` followed by `\]\]`, tried from index `k`: the index of the
      first `]]` at or after `k`, provided no line terminator comes before it. */
  function CloseFrom(s: string, k: nat): (r: Option<nat>)
    decreases |s| - k
    ensures r.Some? ==> k <= r.value && CloseAt(s, r.value)
    ensures r.Some? ==> forall j :: k <= j < r.value ==> !CloseAt(s, j) && !IsLineTerminator(s[j])
    ensures r.None? ==> forall j :: k <= j && CloseAt(s, j) ==> Broken(s, k, j)
  {
    if k + 2 > |s| then None
    else if s[k] == ']' && s[k + 1] == ']' then Some(k)
    else if IsLineTerminator(s[k]) then None
    else CloseFrom(s, k + 1)
  }

  /** The whole pattern tried at index `i`: the index of the closing `]]`, if a match
      starts there. */
  function MatchAt(s: string, i: nat): Option<nat> {
    if OpenAt(s, i) then CloseFrom(s, i + 2) else None
  }

  /** A match `s[start..close + 2]`, whose capture is `s[start + 2..close]`. */
  datatype Marker = Marker(start: nat, close: nat)

  /** What a match found at `m.start` looks like. */
  predicate WellFormed(s: string, m: Marker) {
    && m.start + 2 <= m.close && m.close + 2 <= |s|
    && OpenAt(s, m.start) && CloseAt(s, m.close)
    && forall j :: m.start + 2 <= j < m.close ==> !CloseAt(s, j) && !IsLineTerminator(s[j])
  }

  /** `regex.exec(s)` with `regex.lastIndex == p`: the leftmost match at or after `p`. */
  function NextMatch(s: string, p: nat): (r: Option<Marker>)
    decreases |s| - p
    ensures r.Some? ==> p <= r.value.start && r.value.start + 2 <= r.value.close && r.value.close + 2 <= |s|
  {
    if p + 2 > |s| then None
    else match MatchAt(s, p)
      case Some(k) => Some(Marker(p, k))
      case None => NextMatch(s, p + 1)
  }

  /** The match `NextMatch` reports is a match of the pattern, well formed. */
  lemma {:induction false} NextMatchWellFormed(s: string, p: nat)
    decreases |s| - p
    ensures var r := NextMatch(s, p);
      r.Some? ==> MatchAt(s, r.value.start) == Some(r.value.close) && WellFormed(s, r.value)
  {
    if p + 2 <= |s| && MatchAt(s, p).None? {
      NextMatchWellFormed(s, p + 1);
    }
  }

  /** `NextMatch` finds the leftmost start from `p` at which the pattern matches; when it
      finds nothing, no start from `p` matches. */
  lemma {:induction false} NextMatchLeftmost(s: string, p: nat)
    decreases |s| - p
    ensures var r := NextMatch(s, p);
      r.Some? ==> forall j :: p <= j < r.value.start ==> MatchAt(s, j).None?
    ensures NextMatch(s, p).None? ==> forall j :: p <= j ==> MatchAt(s, j).None?
  {
    if p + 2 <= |s| && MatchAt(s, p).None? {
      NextMatchLeftmost(s, p + 1);
    }
  }

  /** The successive matches of the global pattern from index `p` on: each search resumes
      at the `lastIndex` the previous match left, just past its `]]`. */
  function Scan(s: string, p: nat): (ms: seq<Marker>)
    decreases |s| - p
  {
    match NextMatch(s, p)
    case None => []
    case Some(m) => [m] + Scan(s, m.close + 2)
  }

  /** Every match of a scan is a well-formed match at or after where the scan began, and
      each starts after the previous one's `]]`. */
  lemma {:induction false} ScanShape(s: string, p: nat)
    decreases |s| - p
    ensures forall n :: 0 <= n < |Scan(s, p)| ==> WellFormed(s, Scan(s, p)[n]) && p <= Scan(s, p)[n].start
    ensures forall n :: 0 <= n < |Scan(s, p)| - 1 ==> Scan(s, p)[n].close + 2 <= Scan(s, p)[n + 1].start
  {
    NextMatchWellFormed(s, p);
    match NextMatch(s, p)
    case None =>
    case Some(m) =>
      ScanShape(s, m.close + 2);
      var rest := Scan(s, m.close + 2);
      assert Scan(s, p) == [m] + rest;
      if |rest| > 0 { assert Scan(s, p)[1] == rest[0]; }
  }

  /** The text a match captures, `match[1]`. */
  function Capture(s: string, m: Marker): string {
    if m.start + 2 <= m.close <= |s| then s[m.start + 2..m.close] else []
  }

  /** The captures of the successive matches from index `p` on, in order. */
  function CapturesFrom(s: string, p: nat): (caps: seq<string>)
    decreases |s| - p
  {
    match NextMatch(s, p)
    case None => []
    case Some(m) => [Capture(s, m)] + CapturesFrom(s, m.close + 2)
  }

  /** There is one capture per match of the scan from the same index. */
  lemma {:induction false} CapturesPerMatch(s: string, p: nat)
    decreases |s| - p
    ensures |CapturesFrom(s, p)| == |Scan(s, p)|
  {
    match NextMatch(s, p)
    case None =>
    case Some(m) => CapturesPerMatch(s, m.close + 2);
  }

  /** Every `[[…]]` capture of `s`, left to right. */
  function Captures(s: string): seq<string> {
    CapturesFrom(s, 0)
  }

  /** A capture never holds a line terminator and never holds `]]`: it ends at the first
      `]]` after its `[[`. */
  lemma {:induction false} CaptureShape(s: string, p: nat, n: nat)
    decreases |s| - p
    requires n < |CapturesFrom(s, p)|
    ensures PlainCapture(CapturesFrom(s, p)[n])
  {
    NextMatchWellFormed(s, p);
    var m := NextMatch(s, p).value;
    var rest := CapturesFrom(s, m.close + 2);
    assert CapturesFrom(s, p) == [Capture(s, m)] + rest;
    if n == 0 {
      MatchCapturePlain(s, m);
    } else {
      CaptureShape(s, m.close + 2, n - 1);
      assert CapturesFrom(s, p)[n] == rest[n - 1];
    }
  }

  /** No line terminator and no `]]` inside. */
  predicate PlainCapture(c: string) {
    forall j :: 0 <= j < |c| ==> !IsLineTerminator(c[j]) && !CloseAt(c, j)
  }

  lemma MatchCapturePlain(s: string, m: Marker)
    requires WellFormed(s, m)
    ensures PlainCapture(Capture(s, m))
  {
    var c := Capture(s, m);
    forall j | 0 <= j < |c| ensures !IsLineTerminator(c[j]) && !CloseAt(c, j) {
      assert c[j] == s[m.start + 2 + j];
      if j + 1 < |c| { assert c[j + 1] == s[m.start + 2 + j + 1]; }
    }
  }

  /** Successive matches are ordered and never overlap. */
  lemma MatchesDisjoint(s: string, a: nat, b: nat)
    requires a < b < |Scan(s, 0)|
    ensures Scan(s, 0)[a].close + 2 <= Scan(s, 0)[b].start
  {
    ScanShape(s, 0);
    var ms := Scan(s, 0);
    var k := a;
    while k + 1 < b
      invariant a <= k < b
      invariant ms[a].close + 2 <= ms[k + 1].start
    {
      k := k + 1;
    }
  }

  // ---------------------------------------------------------------------------
  // The regular-expression engine's search, as the loop of `regex.exec`

  /** The search for the closing `]]` of the lazy group, from index `k`. */
  method FindClose(s: string, k: nat) returns (r: Option<nat>)
    ensures r == CloseFrom(s, k)
  {
    var j := k;
    while j + 2 <= |s|
      invariant k <= j
      invariant CloseFrom(s, j) == CloseFrom(s, k)
      decreases |s| - j
    {
      if s[j] == ']' && s[j + 1] == ']' {
        return Some(j);
      }
      if IsLineTerminator(s[j]) {
        return None;
      }
      j := j + 1;
    }
    return None;
  }

  /** `regex.exec(s)` from `lastIndex`: try each start position in turn. */
  method Exec(s: string, lastIndex: nat) returns (m: Option<Marker>)
    ensures m == NextMatch(s, lastIndex)
  {
    var i := lastIndex;
    while i + 2 <= |s|
      invariant lastIndex <= i
      invariant NextMatch(s, i) == NextMatch(s, lastIndex)
      decreases |s| - i
    {
      if s[i] == '[' && s[i + 1] == '[' {
        var close := FindClose(s, i + 2);
        if close.Some? {
          return Some(Marker(i, close.value));
        }
      }
      i := i + 1;
    }
    return None;
  }

  // ---------------------------------------------------------------------------
  // Resolving captures and building the edges

  /** `notes.find(n => n.title === title)`, as an index: the first note whose title is
      exactly `title`. */
  function Resolve(notes: seq<Note>, title: string): (r: Option<nat>)
    ensures r.Some? ==> r.value < |notes| && notes[r.value].title == title
    ensures r.Some? ==> forall j :: 0 <= j < r.value ==> notes[j].title != title
    ensures r.None? ==> forall j :: 0 <= j < |notes| ==> notes[j].title != title
  {
    if notes == [] then None
    else if notes[0].title == title then Some(0)
    else match Resolve(notes[1..], title)
      case None => None
      case Some(k) => Some(k + 1)
  }

  /** A directed edge between two note ids. */
  datatype Link = Link(source: string, target: string)

  /** A node of the map: the note's id, title and folder (its group). */
  datatype GraphNode = GraphNode(id: string, title: string, group: string)

  /** The edge the marker capture `cap` of note `src` contributes: one edge to the first
      note titled `cap`, or none. */
  function LinkFor(notes: seq<Note>, src: string, cap: string): seq<Link> {
    match Resolve(notes, cap)
    case None => []
    case Some(j) => [Link(src, notes[j].id)]
  }

  /** The edges of one note with id `src` whose captures are `caps`, in marker order. */
  function LinksFor(notes: seq<Note>, src: string, caps: seq<string>): (r: seq<Link>)
    ensures |r| <= |caps|
  {
    if caps == [] then [] else LinkFor(notes, src, caps[0]) + LinksFor(notes, src, caps[1..])
  }

  /** The edges contributed by the first `n` notes, by note and then by marker. */
  function EdgesUpTo(notes: seq<Note>, n: nat): seq<Link>
    requires n <= |notes|
  {
    if n == 0 then []
    else EdgesUpTo(notes, n - 1) + LinksFor(notes, notes[n - 1].id, Captures(notes[n - 1].content))
  }

  /** Every edge of the map, duplicates kept. */
  function Edges(notes: seq<Note>): seq<Link> {
    EdgesUpTo(notes, |notes|)
  }

  /** The ids of the notes. */
  function Ids(notes: seq<Note>): (ids: seq<string>)
    ensures |ids| == |notes|
    ensures forall i :: 0 <= i < |notes| ==> ids[i] == notes[i].id
  {
    if notes == [] then [] else [notes[0].id] + Ids(notes[1..])
  }

  function CountSource(l: seq<Link>, id: string): nat {
    if l == [] then 0
    else CountSource(l[..|l| - 1], id) + (if l[|l| - 1].source == id then 1 else 0)
  }

  function CountTarget(l: seq<Link>, id: string): nat {
    if l == [] then 0
    else CountTarget(l[..|l| - 1], id) + (if l[|l| - 1].target == id then 1 else 0)
  }

  /** The number of edge ends at `id`: as source plus as target. */
  function Degree(l: seq<Link>, id: string): nat {
    CountSource(l, id) + CountTarget(l, id)
  }

  /** One more edge adds one to its source's count and one to its target's; a self-link
      adds two. */
  lemma DegreeAppend(l: seq<Link>, e: Link, id: string)
    ensures Degree(l + [e], id)
         == Degree(l, id) + (if e.source == id then 1 else 0) + (if e.target == id then 1 else 0)
  {
    assert (l + [e])[..|l|] == l;
  }

  /** `linkCounts.get(id) || 0`. */
  function CountOf(counts: map<string, nat>, id: string): nat {
    if id in counts then counts[id] else 0
  }
  /** The counts match the edges: every id in the map carries its number of edge ends. */
  predicate CountsMatch(counts: map<string, nat>, links: seq<Link>) {
    forall id {:trigger counts[id]} :: id in counts ==> counts[id] == Degree(links, id)
  }

  /** `linkCounts.set(id, (linkCounts.get(id) || 0) + 1)`. */
  function Bump(counts: map<string, nat>, id: string): (r: map<string, nat>)
    ensures r.Keys == counts.Keys + {id}
    ensures r[id] == CountOf(counts, id) + 1
    ensures forall x :: x in counts && x != id ==> r[x] == counts[x]
  {
    counts[id := CountOf(counts, id) + 1]
  }

  /** Raising both ends' counts after pushing an edge keeps the counts matching. */
  lemma BumpBoth(counts: map<string, nat>, links: seq<Link>, e: Link)
    requires e.source in counts && e.target in counts
    requires CountsMatch(counts, links)
    ensures Bump(Bump(counts, e.source), e.target).Keys == counts.Keys
    ensures CountsMatch(Bump(Bump(counts, e.source), e.target), links + [e])
  {
    var r := Bump(Bump(counts, e.source), e.target);
    forall id | id in r ensures r[id] == Degree(links + [e], id) {
      DegreeAppend(links, e, id);
    }
  }

  /** One `exec` step: the edges still to come from `p` on are the found match's edge
      followed by those from just past its `]]`. */
  lemma LinkStep(notes: seq<Note>, src: string, s: string, p: nat, m: Marker, links: seq<Link>)
    requires NextMatch(s, p) == Some(m)
    ensures links + LinksFor(notes, src, CapturesFrom(s, p))
      == (links + LinkFor(notes, src, s[m.start + 2..m.close])) + LinksFor(notes, src, CapturesFrom(s, m.close + 2))
  {
    var caps := CapturesFrom(s, p);
    var rest := CapturesFrom(s, m.close + 2);
    assert caps == [Capture(s, m)] + rest;
    assert caps[0] == s[m.start + 2..m.close] && caps[1..] == rest;
    var head := LinkFor(notes, src, caps[0]);
    var tail := LinksFor(notes, src, rest);
    assert LinksFor(notes, src, caps) == head + tail;
    assert links + (head + tail) == (links + head) + tail;
  }

  /** The body of the `exec` loop for one capture: find the first note with that title
      and, if there is one, push the edge and raise both ends' counts. */
  method AddLink(notes: seq<Note>, src: string, capture: string, links0: seq<Link>, counts0: map<string, nat>)
    returns (links: seq<Link>, linkCounts: map<string, nat>)
    requires src in counts0
    requires forall i :: 0 <= i < |notes| ==> notes[i].id in counts0
    requires CountsMatch(counts0, links0)
    ensures links == links0 + LinkFor(notes, src, capture)
    ensures linkCounts.Keys <= counts0.Keys
    ensures src in linkCounts
    ensures forall i :: 0 <= i < |notes| ==> notes[i].id in linkCounts
    ensures CountsMatch(linkCounts, links)
  {
    links, linkCounts := links0, counts0;
    var target := Resolve(notes, capture);
    if target.Some? {
      var e := Link(src, notes[target.value].id);
      BumpBoth(linkCounts, links, e);
      links := links + [e];
      linkCounts := Bump(Bump(linkCounts, e.source), e.target);
    } else {
      assert links + [] == links;
    }
  }

  /** The nodes, each with a count of 0: `nodes` and the first `linkCounts` of the source. */
  method InitNodes(notes: seq<Note>) returns (nodes: seq<GraphNode>, linkCounts: map<string, nat>)
    ensures |nodes| == |notes|
    ensures forall i :: 0 <= i < |notes| ==> nodes[i] == GraphNode(notes[i].id, notes[i].title, notes[i].folder)
    ensures forall i :: 0 <= i < |notes| ==> notes[i].id in linkCounts
    ensures forall id :: id in linkCounts ==> id in Ids(notes)
    ensures forall id :: id in linkCounts ==> linkCounts[id] == 0
  {
    linkCounts := map[];
    nodes := [];
    for i := 0 to |notes|
      invariant |nodes| == i
      invariant forall k :: 0 <= k < i ==> nodes[k] == GraphNode(notes[k].id, notes[k].title, notes[k].folder)
      invariant forall k :: 0 <= k < i ==> notes[k].id in linkCounts
      invariant forall id :: id in linkCounts ==> id in Ids(notes)
      invariant forall id :: id in linkCounts ==> linkCounts[id] == 0
    {
      linkCounts := linkCounts[notes[i].id := 0];
      nodes := nodes + [GraphNode(notes[i].id, notes[i].title, notes[i].folder)];
    }
  }

  /** The `exec` loop over one note's content `s`: every match is resolved, pushed and
      counted. */
  method LinkNote(notes: seq<Note>, src: string, s: string, links0: seq<Link>, counts0: map<string, nat>)
    returns (links: seq<Link>, linkCounts: map<string, nat>)
    requires src in counts0
    requires forall i :: 0 <= i < |notes| ==> notes[i].id in counts0
    requires CountsMatch(counts0, links0)
    ensures links == links0 + LinksFor(notes, src, Captures(s))
    ensures linkCounts.Keys <= counts0.Keys
    ensures forall i :: 0 <= i < |notes| ==> notes[i].id in linkCounts
    ensures CountsMatch(linkCounts, links)
  {
    links, linkCounts := links0, counts0;
    ghost var total := links0 + LinksFor(notes, src, Captures(s));
    var lastIndex := 0;
    while true
      invariant lastIndex <= |s|
      invariant total == links + LinksFor(notes, src, CapturesFrom(s, lastIndex))
      invariant linkCounts.Keys <= counts0.Keys
      invariant src in linkCounts
      invariant forall i :: 0 <= i < |notes| ==> notes[i].id in linkCounts
      invariant CountsMatch(linkCounts, links)
      decreases |s| - lastIndex
    {
      var found := Exec(s, lastIndex);
      if found.None? {
        CapturesNone(s, lastIndex);
        break;
      }
      var m := found.value;
      LinkStep(notes, src, s, lastIndex, m, links);
      links, linkCounts := AddLink(notes, src, s[m.start + 2..m.close], links, linkCounts);
      lastIndex := m.close + 2;
    }
    assert links + LinksFor(notes, src, CapturesFrom(s, lastIndex)) == links + [];
  }

  /** The graph derivation: one node per note with every count at 0, then, note by note,
      each `[[…]]` match resolved to the first note with that title, an edge pushed and
      both ends' counts raised. */
  method BuildGraph(notes: seq<Note>) returns (nodes: seq<GraphNode>, links: seq<Link>, linkCounts: map<string, nat>)
    ensures |nodes| == |notes|
    ensures forall i :: 0 <= i < |notes| ==> nodes[i] == GraphNode(notes[i].id, notes[i].title, notes[i].folder)
    ensures links == Edges(notes)
    ensures forall i :: 0 <= i < |notes| ==> notes[i].id in linkCounts
    ensures forall id :: id in linkCounts ==> id in Ids(notes)
    ensures CountsMatch(linkCounts, links)
  {
    nodes, linkCounts := InitNodes(notes);
    ghost var keys := linkCounts.Keys;
    links := [];
    for i := 0 to |notes|
      invariant links == EdgesUpTo(notes, i)
      invariant linkCounts.Keys <= keys
      invariant forall k :: 0 <= k < |notes| ==> notes[k].id in linkCounts
      invariant CountsMatch(linkCounts, links)
    {
      links, linkCounts := LinkNote(notes, notes[i].id, notes[i].content, links, linkCounts);
    }
  }

  // ---------------------------------------------------------------------------
  // Counting properties of the derived graph

  /** Every edge end names a note. */
  lemma {:induction false} EdgeEndsAreNotes(notes: seq<Note>, n: nat, k: nat)
    requires n <= |notes| && k < |EdgesUpTo(notes, n)|
    ensures EdgesUpTo(notes, n)[k].source in Ids(notes)
    ensures EdgesUpTo(notes, n)[k].target in Ids(notes)
  {
    var prev := EdgesUpTo(notes, n - 1);
    if k < |prev| {
      EdgeEndsAreNotes(notes, n - 1, k);
    } else {
      LinksForEnds(notes, notes[n - 1].id, Captures(notes[n - 1].content), k - |prev|);
      assert notes[n - 1].id == Ids(notes)[n - 1];
    }
  }

  lemma {:induction false} LinksForEnds(notes: seq<Note>, src: string, caps: seq<string>, k: nat)
    requires k < |LinksFor(notes, src, caps)|
    ensures LinksFor(notes, src, caps)[k].source == src
    ensures LinksFor(notes, src, caps)[k].target in Ids(notes)
  {
    var head := LinkFor(notes, src, caps[0]);
    if k < |head| {
      var j := Resolve(notes, caps[0]).value;
      assert notes[j].id == Ids(notes)[j];
    } else {
      LinksForEnds(notes, src, caps[1..], k - |head|);
    }
  }

  /** The number of occurrences of `x` in `ids`. */
  function Occurrences(ids: seq<string>, x: string): nat {
    if ids == [] then 0 else (if ids[0] == x then 1 else 0) + Occurrences(ids[1..], x)
  }

  lemma {:induction false} OccurrencesDistinct(ids: seq<string>, x: string)
    requires forall i, j :: 0 <= i < j < |ids| ==> ids[i] != ids[j]
    ensures Occurrences(ids, x) == if x in ids then 1 else 0
  {
    if ids != [] {
      OccurrencesDistinct(ids[1..], x);
      if ids[0] == x {
        assert x !in ids[1..] by {
          forall j | 0 <= j < |ids[1..]| ensures ids[1..][j] != x {
            assert ids[1..][j] == ids[j + 1];
          }
        }
      } else {
        assert x in ids <==> x in ids[1..] by {
          assert ids == [ids[0]] + ids[1..];
        }
      }
    }
  }

  /** The sum of the counts of the ids in `ids`. */
  function SumDegrees(l: seq<Link>, ids: seq<string>): nat {
    if ids == [] then 0 else Degree(l, ids[0]) + SumDegrees(l, ids[1..])
  }

  lemma {:induction false} SumDegreesAppend(l: seq<Link>, e: Link, ids: seq<string>)
    ensures SumDegrees(l + [e], ids) == SumDegrees(l, ids) + Occurrences(ids, e.source) + Occurrences(ids, e.target)
  {
    if ids != [] {
      SumDegreesAppend(l, e, ids[1..]);
      DegreeAppend(l, e, ids[0]);
    }
  }

  /** Summed over distinct ids that cover every edge end, the counts add up to twice the
      number of edges. */
  lemma {:induction false} HandshakeSum(l: seq<Link>, ids: seq<string>)
    requires forall i, j :: 0 <= i < j < |ids| ==> ids[i] != ids[j]
    requires forall k :: 0 <= k < |l| ==> l[k].source in ids && l[k].target in ids
    ensures SumDegrees(l, ids) == 2 * |l|
  {
    if l == [] {
      ZeroDegrees(ids);
    } else {
      var p := l[..|l| - 1];
      var e := l[|l| - 1];
      assert p + [e] == l;
      HandshakeSum(p, ids);
      SumDegreesAppend(p, e, ids);
      OccurrencesDistinct(ids, e.source);
      OccurrencesDistinct(ids, e.target);
    }
  }

  lemma {:induction false} ZeroDegrees(ids: seq<string>)
    ensures SumDegrees([], ids) == 0
  {
    if ids != [] {
      ZeroDegrees(ids[1..]);
    }
  }

  /** Over the distinct note ids, the counts add up to twice the number of edges: every
      edge has two ends, each on a node. */
  lemma DegreeSum(notes: seq<Note>)
    ensures SumDegrees(Edges(notes), Seqs.Dedup(Ids(notes))) == 2 * |Edges(notes)|
  {
    var l := Edges(notes);
    var ids := Seqs.Dedup(Ids(notes));
    forall k | 0 <= k < |l| ensures l[k].source in ids && l[k].target in ids {
      EdgeEndsAreNotes(notes, |notes|, k);
    }
    HandshakeSum(l, ids);
  }

  /** How many of the captures name some note. */
  function ResolvedCount(notes: seq<Note>, caps: seq<string>): nat {
    if caps == [] then 0
    else (if Resolve(notes, caps[0]).Some? then 1 else 0) + ResolvedCount(notes, caps[1..])
  }

  /** A note contributes one edge per capture that names a note, and none for the rest. */
  lemma {:induction false} LinksForCount(notes: seq<Note>, src: string, caps: seq<string>)
    ensures |LinksFor(notes, src, caps)| == ResolvedCount(notes, caps)
  {
    if caps != [] {
      LinksForCount(notes, src, caps[1..]);
    }
  }

  /** The number of edges, summed over the first `n` notes. */
  function ResolvedUpTo(notes: seq<Note>, n: nat): nat
    requires n <= |notes|
  {
    if n == 0 then 0 else ResolvedUpTo(notes, n - 1) + ResolvedCount(notes, Captures(notes[n - 1].content))
  }

  /** The edge count is the number of resolved markers over all notes; a marker whose
      capture names no note contributes nothing. */
  lemma {:induction false} EdgeCount(notes: seq<Note>, n: nat)
    requires n <= |notes|
    ensures |EdgesUpTo(notes, n)| == ResolvedUpTo(notes, n)
  {
    if n > 0 {
      EdgeCount(notes, n - 1);
      var here := LinksFor(notes, notes[n - 1].id, Captures(notes[n - 1].content));
      LinksForCount(notes, notes[n - 1].id, Captures(notes[n - 1].content));
      assert EdgesUpTo(notes, n) == EdgesUpTo(notes, n - 1) + here;
    }
  }

  /** A self-reference raises its note's count by exactly two. */
  lemma SelfLinkAddsTwo(l: seq<Link>, id: string)
    ensures Degree(l + [Link(id, id)], id) == Degree(l, id) + 2
  {
    DegreeAppend(l, Link(id, id), id);
  }

  /** After a rename leaves no note titled `old`, a marker `[[old]]` yields no edge. */
  lemma RenameDropsLink(notes: seq<Note>, k: nat, newTitle: string, src: string, oldTitle: string)
    requires k < |notes| && newTitle != oldTitle
    requires forall j :: 0 <= j < |notes| && j != k ==> notes[j].title != oldTitle
    ensures LinkFor(notes[k := notes[k].(title := newTitle)], src, oldTitle) == []
  {
    var renamed := notes[k := notes[k].(title := newTitle)];
    assert forall j :: 0 <= j < |renamed| ==> renamed[j].title != oldTitle;
  }

  /** After a rename to `t`, a marker `[[t]]` reaches the renamed note when no earlier note
      carries that title. */
  lemma RenameAddsLink(notes: seq<Note>, k: nat, t: string, src: string)
    requires k < |notes|
    requires forall j :: 0 <= j < k ==> notes[j].title != t
    ensures LinkFor(notes[k := notes[k].(title := t)], src, t) == [Link(src, notes[k].id)]
  {
    var renamed := notes[k := notes[k].(title := t)];
    assert renamed[k].title == t;
    forall j | 0 <= j < k ensures renamed[j].title != t {
      assert renamed[j] == notes[j];
    }
  }

  // ---------------------------------------------------------------------------
  // A worked example: two notes, the first linking twice to the second

  function ExampleNotes(): seq<Note> {
    [ Note("1", "A", "See [[B]] and [[B]]", [], 0, 0, "General", None),
      Note("2", "B", "no links", [], 0, 0, "General", None) ]
  }

  /** A start that is not `[` is skipped. */
  lemma SkipPlain(s: string, p: nat)
    requires p < |s| && s[p] != '['
    ensures NextMatch(s, p) == NextMatch(s, p + 1)
  {
  }

  lemma ExampleFirstMatch(s: string)
    requires s == "See [[B]] and [[B]]"
    ensures NextMatch(s, 0) == Some(Marker(4, 7))
  {
    assert s[4] == '[' && s[5] == '[' && s[6] == 'B' && s[7] == ']' && s[8] == ']';
    assert CloseFrom(s, 7) == Some(7);
    assert CloseFrom(s, 6) == Some(7);
    assert MatchAt(s, 4) == Some(7);
    SkipPlain(s, 0);
    SkipPlain(s, 1);
    SkipPlain(s, 2);
    SkipPlain(s, 3);
  }

  lemma ExampleSecondMatch(s: string)
    requires s == "See [[B]] and [[B]]"
    ensures NextMatch(s, 9) == Some(Marker(14, 17))
  {
    assert s[14] == '[' && s[15] == '[' && s[16] == 'B' && s[17] == ']' && s[18] == ']';
    assert CloseFrom(s, 17) == Some(17);
    assert CloseFrom(s, 16) == Some(17);
    assert MatchAt(s, 14) == Some(17);
    SkipPlain(s, 9);
    SkipPlain(s, 10);
    SkipPlain(s, 11);
    SkipPlain(s, 12);
    SkipPlain(s, 13);
  }

  /** The two markers of the first note both capture `B`. */
  lemma ExampleCaptures()
    ensures Captures("See [[B]] and [[B]]") == ["B", "B"]
  {
    var s := "See [[B]] and [[B]]";
    ExampleFirstMatch(s);
    ExampleSecondMatch(s);
    calc {
      CapturesFrom(s, 0);
    ==
      [Capture(s, Marker(4, 7))] + CapturesFrom(s, 9);
    == { assert s[6..7] == [s[6]]; }
      ["B"] + CapturesFrom(s, 9);
    ==
      ["B"] + ([Capture(s, Marker(14, 17))] + CapturesFrom(s, 19));
    == { assert s[16..17] == [s[16]]; assert NextMatch(s, 19).None?; }
      ["B"] + (["B"] + []);
    }
  }

  /** The second note has no marker. */
  lemma ExampleNoCaptures()
    ensures Captures("no links") == []
  {
    NoMatchWithoutOpen("no links", 0);
  }

  /** Text without `[[` has no match. */
  lemma {:induction false} NoMatchWithoutOpen(s: string, p: nat)
    requires forall i :: 0 <= i < |s| ==> s[i] != '['
    decreases |s| - p
    ensures NextMatch(s, p).None?
  {
    if p + 2 <= |s| {
      NoMatchWithoutOpen(s, p + 1);
    }
  }

  /** The edges are `[(1,2), (1,2)]`. */
  lemma ExampleEdges()
    ensures Edges(ExampleNotes()) == [Link("1", "2"), Link("1", "2")]
  {
    var notes := ExampleNotes();
    ExampleCaptures();
    ExampleNoCaptures();
    assert notes[0].title != "B";
    assert Resolve(notes, "B") == Some(1);
    var e := Link("1", "2");
    assert LinkFor(notes, "1", "B") == [e];
    assert LinksFor(notes, "1", ["B"]) == [e];
    assert LinksFor(notes, "1", ["B", "B"]) == [e, e];
    assert EdgesUpTo(notes, 1) == [e, e];
    assert EdgesUpTo(notes, 2) == EdgesUpTo(notes, 1) + [];
  }

  /** Both notes carry a count of 2. */
  lemma ExampleCounts()
    ensures Degree(Edges(ExampleNotes()), "1") == 2 && Degree(Edges(ExampleNotes()), "2") == 2
  {
    ExampleEdges();
    var e := Link("1", "2");
    var l := [e, e];
    DegreeAppend([], e, "1");
    DegreeAppend([], e, "2");
    DegreeAppend([e], e, "1");
    DegreeAppend([e], e, "2");
    assert [e] + [e] == l;
  }

  // ---------------------------------------------------------------------------
  // Matching in a concatenation

  function ShiftClose(o: Option<nat>, d: nat): Option<nat> {
    match o
    case None => None
    case Some(e) => Some(d + e)
  }

  function ShiftMarker(o: Option<Marker>, d: nat): Option<Marker> {
    match o
    case None => None
    case Some(m) => Some(Marker(d + m.start, d + m.close))
  }

  /** The pattern only looks forward, so text in front of `s` does not change what matches
      inside `s`: the closing search, ... */
  lemma {:induction false} CloseFromShift(w: string, s: string, k: nat)
    decreases |s| - k
    ensures CloseFrom(w + s, |w| + k) == ShiftClose(CloseFrom(s, k), |w|)
  {
    if k + 2 <= |s| {
      assert (w + s)[|w| + k] == s[k] && (w + s)[|w| + k + 1] == s[k + 1];
      if !(s[k] == ']' && s[k + 1] == ']') && !IsLineTerminator(s[k]) {
        CloseFromShift(w, s, k + 1);
      }
    }
  }

  /** ... the match at one start, ... */
  lemma MatchAtShift(w: string, s: string, i: nat)
    ensures MatchAt(w + s, |w| + i) == ShiftClose(MatchAt(s, i), |w|)
  {
    if i + 1 < |s| {
      assert (w + s)[|w| + i] == s[i] && (w + s)[|w| + i + 1] == s[i + 1];
    }
    CloseFromShift(w, s, i + 2);
  }

  /** ... the leftmost match, ... */
  lemma {:induction false} NextMatchShift(w: string, s: string, p: nat)
    decreases |s| - p
    ensures NextMatch(w + s, |w| + p) == ShiftMarker(NextMatch(s, p), |w|)
  {
    if p + 2 <= |s| {
      MatchAtShift(w, s, p);
      if MatchAt(s, p).None? { NextMatchShift(w, s, p + 1); }
    }
  }

  /** ... and so every capture after it. */
  lemma {:induction false} CapturesShift(x: string, w: string, s: string, p: nat)
    requires x == w + s
    decreases |s| - p
    ensures CapturesFrom(x, |w| + p) == CapturesFrom(s, p)
  {
    match NextMatch(s, p)
    case Some(m) =>
      CapturesShift(x, w, s, m.close + 2);
      ShiftSome(x, w, s, p, m);
    case None =>
      ShiftNone(x, w, s, p);
  }

  /** The step of `CapturesShift` where `s` has a match from `p` on. */
  lemma ShiftSome(x: string, w: string, s: string, p: nat, m: Marker)
    requires x == w + s && NextMatch(s, p) == Some(m)
    requires CapturesFrom(x, |w| + (m.close + 2)) == CapturesFrom(s, m.close + 2)
    ensures CapturesFrom(x, |w| + p) == CapturesFrom(s, p)
  {
    FoundShift(x, w, s, p, m);
    CaptureShift(x, w, s, m);
    ShiftStep(x, s, p, |w|, m);
  }

  /** The step of `CapturesShift` where `s` has no match from `p` on. */
  lemma ShiftNone(x: string, w: string, s: string, p: nat)
    requires x == w + s && NextMatch(s, p).None?
    ensures CapturesFrom(x, |w| + p) == CapturesFrom(s, p)
  {
    NextMatchShift(w, s, p);
    CapturesNone(x, |w| + p);
    CapturesNone(s, p);
  }

  /** A match of `s` found again `d` places later in `x`, with the same capture and the
      same captures after it, gives the same captures. */
  lemma ShiftStep(x: string, s: string, p: nat, d: nat, m: Marker)
    requires NextMatch(s, p) == Some(m)
    requires NextMatch(x, d + p) == Some(Marker(d + m.start, d + m.close))
    requires Capture(x, Marker(d + m.start, d + m.close)) == Capture(s, m)
    requires CapturesFrom(x, d + (m.close + 2)) == CapturesFrom(s, m.close + 2)
    ensures CapturesFrom(x, d + p) == CapturesFrom(s, p)
  {
    var m' := Marker(d + m.start, d + m.close);
    CapturesStep(x, d + p, m', d + (m.close + 2));
    CapturesStep(s, p, m, m.close + 2);
    SameCons(CapturesFrom(x, d + p), CapturesFrom(s, p), Capture(x, m'), Capture(s, m),
      CapturesFrom(x, d + (m.close + 2)), CapturesFrom(s, m.close + 2));
  }

  /** Two lists with equal heads and equal tails are equal. */
  lemma SameCons(a: seq<string>, b: seq<string>, h: string, h': string, t: seq<string>, t': seq<string>)
    requires a == [h] + t && b == [h'] + t' && h == h' && t == t'
    ensures a == b
  {
  }

  lemma CapturesNone(x: string, p: nat)
    requires NextMatch(x, p).None?
    ensures CapturesFrom(x, p) == []
  {
  }

  /** One step of the capture loop. */
  lemma CapturesStep(x: string, p: nat, m: Marker, q: nat)
    requires NextMatch(x, p) == Some(m) && q == m.close + 2
    ensures CapturesFrom(x, p) == [Capture(x, m)] + CapturesFrom(x, q)
  {
  }

  lemma CaptureShift(x: string, w: string, s: string, m: Marker)
    requires x == w + s && m.start + 2 <= m.close <= |s|
    ensures Capture(x, Marker(|w| + m.start, |w| + m.close)) == Capture(s, m)
  {
    assert x[|w| + m.start + 2..|w| + m.close] == s[m.start + 2..m.close];
  }

  /** A match of `s` is found again `|w|` places later in `x`. */
  lemma FoundShift(x: string, w: string, s: string, p: nat, m: Marker)
    requires x == w + s && NextMatch(s, p) == Some(m)
    ensures NextMatch(x, |w| + p) == Some(Marker(|w| + m.start, |w| + m.close))
  {
    NextMatchShift(w, s, p);
  }

  /** Starts holding no `[[` are skipped. */
  lemma {:induction false} SkipNoOpen(x: string, p: nat, q: nat)
    requires p <= q
    requires forall i :: p <= i < q ==> !OpenAt(x, i)
    decreases q - p
    ensures NextMatch(x, p) == NextMatch(x, q)
    ensures CapturesFrom(x, p) == CapturesFrom(x, q)
  {
    if p < q && p + 2 <= |x| {
      SkipNoOpen(x, p + 1, q);
    }
  }

  /** Text without `[` in front adds no capture. */
  lemma SkipFree(x: string, w: string, s: string)
    requires x == w + s && NoBracket(w)
    ensures Captures(x) == Captures(s)
  {
    forall i | 0 <= i < |w| ensures !OpenAt(x, i) { assert x[i] == w[i]; }
    SkipNoOpen(x, 0, |w|);
    CapturesShift(x, w, s, 0);
  }

  /** A single `[`, as in a checklist box, adds no capture. */
  lemma SkipBracket(x: string, s: string)
    requires x == "[" + s && (s == [] || s[0] != '[')
    ensures Captures(x) == Captures(s)
  {
    if |x| > 1 { assert x[1] == s[0]; }
    SkipNoOpen(x, 0, 1);
    CapturesShift(x, "[", s, 0);
  }

  /** The lazy group ends at the first `]]` when no `]` and no line terminator come
      before it. */
  lemma {:induction false} CloseRun(x: string, k: nat, e: nat)
    requires k <= e && CloseAt(x, e)
    requires forall j :: k <= j < e ==> x[j] != ']' && !IsLineTerminator(x[j])
    decreases e - k
    ensures CloseFrom(x, k) == Some(e)
  {
    if k < e { CloseRun(x, k + 1, e); }
  }

  /** A marker `[[t]]` in front, with `t` free of `]` and of line terminators, adds the
      capture `t`. */
  lemma TakeMarker(x: string, t: string, s: string)
    requires x == "[[" + t + "]]" + s && PlainTitle(t)
    ensures Captures(x) == [t] + Captures(s)
  {
    var w := "[[" + t + "]]";
    assert x == w + s;
    forall j | 2 <= j < 2 + |t| ensures x[j] != ']' && !IsLineTerminator(x[j]) {
      assert x[j] == t[j - 2];
    }
    assert x[2 + |t|] == ']' && x[3 + |t|] == ']';
    CloseRun(x, 2, 2 + |t|);
    assert x[0] == '[' && x[1] == '[';
    assert MatchAt(x, 0) == Some(2 + |t|);
    assert x[2..2 + |t|] == t;
    CapturesShift(x, w, s, 0);
  }

  // ---------------------------------------------------------------------------
  // The seed vault, shortened: the two opening notes keep a heading, a list line, one
  // checklist box of each kind and their markers to each other.

  /** A capture `TakeMarker` accepts. */
  predicate PlainTitle(t: string) {
    forall i :: 0 <= i < |t| ==> t[i] != ']' && !IsLineTerminator(t[i])
  }

  /** No `[` anywhere in `w`. */
  predicate NoBracket(w: string) {
    forall i :: 0 <= i < |w| ==> w[i] != '['
  }

  function SeedVision(): string {
    "# The Vision\n" + ("- Local Only\n\n" + ("[[" + "Development Roadmap" + "]]" + ""))
  }

  function SeedRoadmap(): string {
    "# Phase 1\n- " + ("[" + ("x] Note Editor\n- " + ("[" + (" ] Graph View\n\nSee "
      + ("[[" + "Project NEXUS Vision" + "]]" + " for context.")))))
  }

  function SeedNotes(): seq<Note> {
    [ Note("1", "Project NEXUS Vision", SeedVision(), ["vision", "roadmap"], 0, 0, "Product", None),
      Note("2", "Development Roadmap", SeedRoadmap(), ["dev", "nexus"], 0, 0, "Engineering", None) ]
  }

  lemma SeedTitlesPlain()
    ensures PlainTitle("Development Roadmap") && PlainTitle("Project NEXUS Vision")
  {
  }

  lemma SeedTextFree()
    ensures NoBracket("# The Vision\n") && NoBracket("- Local Only\n\n") && NoBracket("# Phase 1\n- ")
    ensures NoBracket("x] Note Editor\n- ") && NoBracket(" ] Graph View\n\nSee ") && NoBracket(" for context.")
  {
  }

  /** Each seed note captures the other's title once; the checklist boxes `[x]` and `[ ]`
      capture nothing. */
  lemma SeedCaptures()
    ensures Captures(SeedVision()) == ["Development Roadmap"]
    ensures Captures(SeedRoadmap()) == ["Project NEXUS Vision"]
  {
    SeedTitlesPlain();
    SeedTextFree();
    var m1 := "[[" + "Development Roadmap" + "]]" + "";
    SkipFree(SeedVision(), "# The Vision\n", "- Local Only\n\n" + m1);
    SkipFree("- Local Only\n\n" + m1, "- Local Only\n\n", m1);
    TakeMarker(m1, "Development Roadmap", "");
    var m2 := "[[" + "Project NEXUS Vision" + "]]" + " for context.";
    var r3 := " ] Graph View\n\nSee " + m2;
    var r2 := "x] Note Editor\n- " + ("[" + r3);
    SkipFree(SeedRoadmap(), "# Phase 1\n- ", "[" + r2);
    SkipBracket("[" + r2, r2);
    SkipFree(r2, "x] Note Editor\n- ", "[" + r3);
    SkipBracket("[" + r3, r3);
    SkipFree(r3, " ] Graph View\n\nSee ", m2);
    TakeMarker(m2, "Project NEXUS Vision", " for context.");
    SkipFree(" for context.", " for context.", "");
  }

  /** The seed graph has the two edges (1,2) and (2,1). */
  lemma SeedEdges()
    ensures Edges(SeedNotes()) == [Link("1", "2"), Link("2", "1")]
  {
    var notes := SeedNotes();
    SeedCaptures();
    assert notes[0].title != "Development Roadmap";
    assert Resolve(notes, "Development Roadmap") == Some(1);
    assert Resolve(notes, "Project NEXUS Vision") == Some(0);
    assert LinksFor(notes, "1", ["Development Roadmap"]) == [Link("1", "2")];
    assert LinksFor(notes, "2", ["Project NEXUS Vision"]) == [Link("2", "1")];
    assert EdgesUpTo(notes, 1) == [Link("1", "2")];
  }

  /** Both seed notes carry a count of 2, so both are drawn with radius 10. */
  lemma SeedCounts()
    ensures Degree(Edges(SeedNotes()), "1") == 2 && Degree(Edges(SeedNotes()), "2") == 2
    ensures NodeRadius(Degree(Edges(SeedNotes()), "1")) == 10
  {
    SeedEdges();
    var a, b := Link("1", "2"), Link("2", "1");
    DegreeAppend([], a, "1");
    DegreeAppend([], a, "2");
    DegreeAppend([a], b, "1");
    DegreeAppend([a], b, "2");
    assert [a] + [b] == [a, b];
  }

  // ---------------------------------------------------------------------------
  // Visual weight and colour

  /** The circle radius, `6 + count * 2`. */
  function NodeRadius(degree: nat): (r: nat)
    ensures r >= 6 && r % 2 == 0
  {
    6 + degree * 2
  }

  /** The label's vertical offset, `18 + count * 2`: always 12 below the circle's radius. */
  function LabelOffset(degree: nat): (r: nat)
    ensures r == NodeRadius(degree) + 12
  {
    18 + degree * 2
  }

  /** A node with more links is drawn strictly larger, with its label strictly lower; each
      further link adds two pixels to both. */
  lemma RadiusGrows(d1: nat, d2: nat)
    requires d1 < d2
    ensures NodeRadius(d1) < NodeRadius(d2) && LabelOffset(d1) < LabelOffset(d2)
    ensures NodeRadius(d2) - NodeRadius(d1) == 2 * (d2 - d1) == LabelOffset(d2) - LabelOffset(d1)
  {
  }

  /** The circle's fill, chosen by folder. */
  function Fill(group: string): (c: string)
    ensures c == "#0f766e" <==> group == "Engineering"
    ensures c == "#2383e2" <==> group == "Product"
    ensures c == "#f7f7f5" <==> group != "Engineering" && group != "Product"
  {
    if group == "Engineering" then "#0f766e"
    else if group == "Product" then "#2383e2"
    else "#f7f7f5"
  }

  /** The circle's stroke. */
  function Stroke(group: string): (c: string)
    ensures c == "#e9e9e7" <==> group == "General"
    ensures c == "white" <==> group != "General"
  {
    if group == "General" then "#e9e9e7" else "white"
  }
}
