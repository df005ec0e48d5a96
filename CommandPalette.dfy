/** The command palette (components/CommandPalette.tsx): the list of views and notes that
    match the query, and the keyboard handling that moves the highlighted row and opens
    the item under it. */
module CommandPalette {
  import opened Types
  import Seqs
  import Strings

  /** A row of the palette: a view, or a note shown by its title. */
  datatype Item = ViewItem(view: ViewType, name: string) | NoteItem(id: string, name: string)

  /** The fixed list of views, in the order the palette shows them. */
  function ViewAt(k: nat): Item
    requires k < 8
  {
    if k == 0 then ViewItem(Dashboard, "Dashboard")
    else if k == 1 then ViewItem(Notes, "Notes")
    else if k == 2 then ViewItem(Graph, "Graph")
    else if k == 3 then ViewItem(Tasks, "Tasks")
    else if k == 4 then ViewItem(Habits, "Habits")
    else if k == 5 then ViewItem(Study, "Study")
    else if k == 6 then ViewItem(Identity, "Identity")
    else ViewItem(Settings, "Settings")
  }

  function Views(): (vs: seq<Item>)
    ensures |vs| == 8
    ensures forall k :: 0 <= k < 8 ==> vs[k] == ViewAt(k)
  {
    seq(8, k requires 0 <= k < 8 => ViewAt(k))
  }

  /** The eight rows are different views. */
  lemma ViewsDistinct()
    ensures Seqs.Distinct(Views())
  {
    forall i, j | 0 <= i < j < 8 ensures Views()[i] != Views()[j] {
      assert Views()[i].view != Views()[j].view;
    }
  }

  /** `notes.map(n => ({ type: 'note', id: n.id, label: n.title }))`. */
  function NoteItems(notes: seq<Note>): (r: seq<Item>)
    ensures |r| == |notes|
    ensures forall i :: 0 <= i < |notes| ==> r[i] == NoteItem(notes[i].id, notes[i].title)
  {
    seq(|notes|, i requires 0 <= i < |notes| => NoteItem(notes[i].id, notes[i].title))
  }

  predicate LabelMatches(v: Item, query: string) { Strings.Matches(v.name, query) }
  predicate TitleMatches(n: Note, query: string) { Strings.Matches(n.title, query) }

  /** `filteredItems`: the matching views, then the matching notes. */
  function FilteredItems(query: string, notes: seq<Note>): seq<Item> {
    Seqs.Filter(Views(), (v: Item) => LabelMatches(v, query))
    + NoteItems(Seqs.Filter(notes, (n: Note) => TitleMatches(n, query)))
  }

  /** Views come first and are exactly the views whose label contains the query; the notes
      that follow are exactly the notes whose title contains it, in vault order. */
  lemma FilteredItemsSpec(query: string, notes: seq<Note>)
    ensures var r := FilteredItems(query, notes);
      var k := |Seqs.Filter(Views(), (v: Item) => LabelMatches(v, query))|;
      (forall i :: 0 <= i < k ==> r[i].ViewItem? && r[i] in Views() && LabelMatches(r[i], query))
      && (forall v :: v in Views() && LabelMatches(v, query) ==> v in r[..k])
      && r[k..] == NoteItems(Seqs.Filter(notes, (n: Note) => TitleMatches(n, query)))
    ensures forall i, j :: 0 <= i < j < |FilteredItems(query, notes)| && FilteredItems(query, notes)[j].ViewItem? ==>
      FilteredItems(query, notes)[i].ViewItem?
    ensures var fv := Seqs.Filter(Views(), (v: Item) => LabelMatches(v, query));
      FilteredItems(query, notes)[..|fv|] == fv && Seqs.FirstOrder(Views(), fv)
  {
    ItemsShape(Views(), notes, query);
    ViewsDistinct();
    Seqs.FilterFirstOrder(Views(), (v: Item) => LabelMatches(v, query));
  }

  /** The same facts for any list of view rows. */
  lemma ItemsShape(vs: seq<Item>, notes: seq<Note>, query: string)
    requires forall v :: v in vs ==> v.ViewItem?
    ensures var pv := (v: Item) => LabelMatches(v, query);
      var r := Seqs.Filter(vs, pv) + NoteItems(Seqs.Filter(notes, (n: Note) => TitleMatches(n, query)));
      var k := |Seqs.Filter(vs, pv)|;
      (forall i :: 0 <= i < k ==> r[i].ViewItem? && r[i] in vs && LabelMatches(r[i], query))
      && (forall v :: v in vs && LabelMatches(v, query) ==> v in r[..k])
      && r[k..] == NoteItems(Seqs.Filter(notes, (n: Note) => TitleMatches(n, query)))
      && (forall i, j :: 0 <= i < j < |r| && r[j].ViewItem? ==> r[i].ViewItem?)
  {
    var pv := (v: Item) => LabelMatches(v, query);
    var pn := (n: Note) => TitleMatches(n, query);
    var fv := Seqs.Filter(vs, pv);
    var ni := NoteItems(Seqs.Filter(notes, pn));
    var r := fv + ni;
    assert r[..|fv|] == fv && r[|fv|..] == ni;
    forall i | 0 <= i < |fv| ensures r[i].ViewItem? && r[i] in vs && LabelMatches(r[i], query) {
      Seqs.FilterMembers(vs, pv, fv[i]);
    }
    forall v | v in vs && LabelMatches(v, query) ensures v in r[..|fv|] {
      Seqs.FilterMembers(vs, pv, v);
    }
  }

  /** An empty query lists all eight views and then every note. */
  lemma EmptyQuery(notes: seq<Note>)
    ensures FilteredItems("", notes) == Views() + NoteItems(notes)
    ensures |FilteredItems("", notes)| == 8 + |notes|
  {
    EmptyKeepsAll(Views(), notes);
  }

  lemma EmptyKeepsAll(vs: seq<Item>, notes: seq<Note>)
    ensures Seqs.Filter(vs, (v: Item) => LabelMatches(v, "")) == vs
    ensures Seqs.Filter(notes, (n: Note) => TitleMatches(n, "")) == notes
  {
    forall v | v in vs ensures LabelMatches(v, "") { Strings.MatchesEmpty(v.name); }
    forall n | n in notes ensures TitleMatches(n, "") { Strings.MatchesEmpty(n.title); }
    Seqs.FilterPasses(vs, (v: Item) => LabelMatches(v, ""));
    Seqs.FilterPasses(notes, (n: Note) => TitleMatches(n, ""));
  }

  // ---------------------------------------------------------------------------
  // The highlighted row

  /** `selectedIndex` is a JavaScript number: `x % 0` is `NaN`, and `NaN` stays `NaN`
      through further arithmetic. */
  datatype Index = At(i: int) | NaN

  /** JavaScript's `a % n`: `NaN` for `n == 0`, otherwise the remainder truncated toward
      zero, which takes the sign of `a`. */
  function JsRem(a: int, n: nat): (r: Index)
    ensures n == 0 <==> r == NaN
    ensures n > 0 && a >= 0 ==> r == At(a % n) && 0 <= r.i < n
    ensures n > 0 && a < 0 ==> r.At? && -(n as int) < r.i <= 0
  {
    if n == 0 then NaN else if a >= 0 then At(a % n) else At(-((-a) % n))
  }

  /** ArrowDown: `(i + 1) % filteredItems.length`. */
  function Down(idx: Index, n: nat): Index {
    match idx
    case NaN => NaN
    case At(i) => JsRem(i + 1, n)
  }

  /** ArrowUp: `(i - 1 + filteredItems.length) % filteredItems.length`. */
  function Up(idx: Index, n: nat): Index {
    match idx
    case NaN => NaN
    case At(i) => JsRem(i - 1 + n, n)
  }

  /** On a non-empty list the arrows keep the row in range, wrap at both ends and undo
      each other. */
  lemma Wrap(i: int, n: nat)
    requires 0 <= i < n
    ensures Down(At(i), n).At? && 0 <= Down(At(i), n).i < n
    ensures Up(At(i), n).At? && 0 <= Up(At(i), n).i < n
    ensures Down(At(i), n) == At(if i == n - 1 then 0 else i + 1)
    ensures Up(At(i), n) == At(if i == 0 then n - 1 else i - 1)
    ensures Up(Down(At(i), n), n) == At(i)
    ensures Down(Up(At(i), n), n) == At(i)
  {
    ModOnce(i + 1, n);
    ModOnce(i - 1 + n, n);
    var d := if i == n - 1 then 0 else i + 1;
    var u := if i == 0 then n - 1 else i - 1;
    ModOnce(d - 1 + n, n);
    ModOnce(u + 1, n);
  }

  /** `a % n` for `0 <= a < 2n`. */
  lemma ModOnce(a: int, n: int)
    requires 0 < n && 0 <= a < 2 * n
    ensures a % n == if a < n then a else a - n
  {
    if a < n {
      assert a == 0 * n + a;
    } else {
      assert a == 1 * n + (a - n);
    }
  }

  /** On an empty list an arrow turns the index into `NaN`, and no arrow brings it back. */
  lemma EmptyListNaN(idx: Index)
    ensures Down(idx, 0) == NaN && Up(idx, 0) == NaN
    ensures forall n: nat :: Down(NaN, n) == NaN && Up(NaN, n) == NaN
  {
  }

  // ---------------------------------------------------------------------------
  // Opening an item

  /** What the palette asks its parent to do. Opening a view or a note also closes the
      palette. */
  datatype Dispatch = Nothing | OpenView(view: ViewType) | OpenNote(id: string) | Dismiss

  /** Clicking a row, or pressing Enter on it. */
  function ItemAction(item: Item): Dispatch {
    match item
    case ViewItem(v, _) => OpenView(v)
    case NoteItem(id, _) => OpenNote(id)
  }

  /** Enter: `filteredItems[selectedIndex]`, and nothing when that is `undefined`. */
  function EnterAction(items: seq<Item>, idx: Index): (d: Dispatch)
    ensures d != Nothing <==> idx.At? && 0 <= idx.i < |items|
    ensures d != Nothing ==> d == ItemAction(items[idx.i])
    ensures d.OpenView? ==> ViewItem(d.view, items[idx.i].name) in items
  {
    match idx
    case NaN => Nothing
    case At(i) => if 0 <= i < |items| then ItemAction(items[i]) else Nothing
  }

  datatype Key = ArrowDown | ArrowUp | Enter | Escape | OtherKey

  /** The index after a key press on a list of `n` rows. */
  function NextIndex(key: Key, idx: Index, n: nat): Index {
    if key == ArrowDown then Down(idx, n) else if key == ArrowUp then Up(idx, n) else idx
  }

  /** The palette's state: the query typed so far and the highlighted row. */
  class Palette {
    var query: string
    var selected: Index

    /** The palette opens with an empty query and the first row highlighted. */
    constructor()
      ensures query == "" && selected == At(0)
      ensures Valid()
    {
      query := "";
      selected := At(0);
    }

    /** The index is never negative: it starts at 0 and the arrows only produce
        remainders of non-negative numbers. KeyDown needs it to keep a highlighted row in
        range. */
    ghost predicate Valid()
      reads this
    {
      selected.At? ==> selected.i >= 0
    }

    /** Typing: the new query, and the highlight goes back to the first row. */
    method SetQuery(q: string)
      modifies this
      ensures query == q && selected == At(0)
      ensures Valid()
    {
      query := q;
      selected := At(0);
    }

    /** `handleKeyDown`, with `Escape` handled by the window listener. */
    method KeyDown(key: Key, notes: seq<Note>) returns (d: Dispatch)
      requires Valid()
      modifies this
      ensures Valid()
      ensures query == old(query)
      ensures selected == NextIndex(key, old(selected), |FilteredItems(query, notes)|)
      ensures d == (if key == Enter then EnterAction(FilteredItems(query, notes), selected)
                    else if key == Escape then Dismiss
                    else Nothing)
      ensures var n := |FilteredItems(query, notes)|;
        old(selected).At? && old(selected).i < n ==> selected.At? && 0 <= selected.i < n
    {
      var items := FilteredItems(query, notes);
      d := Nothing;
      if key == ArrowDown {
        if selected.At? && selected.i < |items| { Wrap(selected.i, |items|); }
        selected := Down(selected, |items|);
      } else if key == ArrowUp {
        if selected.At? && selected.i < |items| { Wrap(selected.i, |items|); }
        selected := Up(selected, |items|);
      } else if key == Enter {
        d := EnterAction(items, selected);
      } else if key == Escape {
        d := Dismiss;
      }
    }
  }
}
