/** The note editor's text logic (components/NoteEditor.tsx): the HTML escape that opens
    `renderMarkdown`, its line-by-line state machine with tables and lists, and the
    toolbar's `applyFormatting` splice. */
module NoteEditor {
  import opened Types
  import Seqs
  import Strings

  // ---------------------------------------------------------------------------
  // Escaping: `&` first, then `<`, then `>`

  /** `.replace(/&/g, '&amp;').replace(/</g, '&lt;').replace(/>/g, '&gt;')`. */
  function Escape(s: string): (r: string)
    ensures '<' !in r && '>' !in r
  {
    var a := Strings.ReplaceChar(s, '&', "&amp;");
    var b := Strings.ReplaceChar(a, '<', "&lt;");
    Strings.ReplaceCharRemoves(a, '<', "&lt;");
    Strings.ReplaceCharRemoves(b, '>', "&gt;");
    Strings.ReplaceCharAbsent(b, '>', "&gt;", '<');
    Strings.ReplaceChar(b, '>', "&gt;")
  }

  /** The entity one character escapes to. */
  function EscapeChar(c: char): string {
    if c == '&' then "&amp;" else if c == '<' then "&lt;" else if c == '>' then "&gt;" else [c]
  }

  /** Escaping character by character. */
  function Escaped(s: string): string {
    if s == [] then [] else EscapeChar(s[0]) + Escaped(s[1..])
  }

  lemma EscapeOne(x: char)
    ensures Escape([x]) == EscapeChar(x)
  {
    Strings.ReplaceCharSingle(x, '&', "&amp;");
    if x == '&' {
      Strings.ReplaceCharNoOp("&amp;", '<', "&lt;");
      Strings.ReplaceCharNoOp("&amp;", '>', "&gt;");
    } else {
      Strings.ReplaceCharSingle(x, '<', "&lt;");
      if x == '<' {
        Strings.ReplaceCharNoOp("&lt;", '>', "&gt;");
      } else {
        Strings.ReplaceCharSingle(x, '>', "&gt;");
      }
    }
  }

  /** The three global replacements, done in this order, escape each character on its
      own: an `&` produced by an entity is never escaped again. */
  lemma {:induction false} EscapeCharwise(s: string)
    ensures Escape(s) == Escaped(s)
  {
    if s != [] {
      var x, t := s[0], s[1..];
      var r1 := (u: string) => Strings.ReplaceChar(u, '&', "&amp;");
      var r2 := (u: string) => Strings.ReplaceChar(u, '<', "&lt;");
      var r3 := (u: string) => Strings.ReplaceChar(u, '>', "&gt;");
      calc {
        Escape(s);
      == { assert s == [x] + t; Strings.ReplaceCharAppend([x], t, '&', "&amp;"); }
        r3(r2(r1([x]) + r1(t)));
      == { Strings.ReplaceCharAppend(r1([x]), r1(t), '<', "&lt;"); }
        r3(r2(r1([x])) + r2(r1(t)));
      == { Strings.ReplaceCharAppend(r2(r1([x])), r2(r1(t)), '>', "&gt;"); }
        Escape([x]) + Escape(t);
      == { EscapeOne(x); EscapeCharwise(t); }
        EscapeChar(x) + Escaped(t);
      }
    }
  }

  /** Reads the three entities back. */
  function Unescape(s: string): string
    decreases |s|
  {
    if s == [] then []
    else if Strings.StartsWith(s, "&amp;") then "&" + Unescape(s[5..])
    else if Strings.StartsWith(s, "&lt;") then "<" + Unescape(s[4..])
    else if Strings.StartsWith(s, "&gt;") then ">" + Unescape(s[4..])
    else [s[0]] + Unescape(s[1..])
  }

  /** A string differing from `p` at some position of `p` does not start with `p`. */
  lemma Mismatch(s: string, p: string, i: nat)
    requires i < |p| && i < |s| && s[i] != p[i]
    ensures !Strings.StartsWith(s, p)
  {
    if |p| <= |s| {
      assert s[..|p|][i] == s[i];
    }
  }

  lemma UnescapeAmp(r: string)
    ensures Unescape("&amp;" + r) == "&" + Unescape(r)
  {
    var w := "&amp;" + r;
    assert w[..5] == "&amp;" && w[5..] == r;
  }

  lemma UnescapeLt(r: string)
    ensures Unescape("&lt;" + r) == "<" + Unescape(r)
  {
    var w := "&lt;" + r;
    assert w[1] == 'l' && "&amp;"[1] == 'a';
    Mismatch(w, "&amp;", 1);
    assert w[..4] == "&lt;" && w[4..] == r;
  }

  lemma UnescapeGt(r: string)
    ensures Unescape("&gt;" + r) == ">" + Unescape(r)
  {
    var w := "&gt;" + r;
    assert w[1] == 'g' && "&amp;"[1] == 'a' && "&lt;"[1] == 'l';
    Mismatch(w, "&amp;", 1);
    Mismatch(w, "&lt;", 1);
    assert w[..4] == "&gt;" && w[4..] == r;
  }

  lemma UnescapePlain(c: char, r: string)
    requires c != '&'
    ensures Unescape([c] + r) == [c] + Unescape(r)
  {
    var w := [c] + r;
    assert w[0] == c && w[1..] == r;
  }

  /** An escaped character reads back to itself, whatever follows it. */
  lemma UnescapeCons(x: char, r: string)
    ensures Unescape(EscapeChar(x) + r) == [x] + Unescape(r)
  {
    if x == '&' {
      UnescapeAmp(r);
    } else if x == '<' {
      UnescapeLt(r);
    } else if x == '>' {
      UnescapeGt(r);
    } else {
      UnescapePlain(x, r);
    }
  }

  lemma {:induction false} UnescapeEscaped(s: string)
    ensures Unescape(Escaped(s)) == s
  {
    if s != [] {
      var x, t := s[0], s[1..];
      calc {
        Unescape(Escaped(s));
      ==
        Unescape(EscapeChar(x) + Escaped(t));
      == { UnescapeCons(x, Escaped(t)); }
        [x] + Unescape(Escaped(t));
      == { UnescapeEscaped(t); }
        [x] + t;
      }
      assert s == [x] + t;
    }
  }

  /** Escaping loses nothing: the entities read back to the original text. */
  lemma UnescapeEscape(s: string)
    ensures Unescape(Escape(s)) == s
  {
    EscapeCharwise(s);
    UnescapeEscaped(s);
  }

  // ---------------------------------------------------------------------------
  // The pieces the line loop pushes

  /** What one `result.push` adds; `BlockHtml` gives its text. */
  datatype Block =
    | ListOpen
    | ListClose
    | Item(text: string)
    | Spacer
    | Paragraph(text: string)
    | TableBlock(header: seq<string>, body: seq<seq<string>>)

  const TableOpen: string := "<div class=\"overflow-x-auto my-6\"><table class=\"professional-table\"><thead><tr>"
  const HeadClose: string := "</tr></thead><tbody>"
  const TableClose: string := "</tbody></table></div>"

  /** The cells of one row, each wrapped in `<tag>…</tag>`, in order. */
  function CellsHtml(tag: string, cells: seq<string>): string {
    if cells == [] then []
    else CellsHtml(tag, cells[..|cells| - 1]) + ("<" + tag + ">" + cells[|cells| - 1] + "</" + tag + ">")
  }

  /** One body row: a `<tr>` of `<td>` cells. */
  function RowHtml(row: seq<string>): string {
    "<tr>" + CellsHtml("td", row) + "</tr>"
  }

  /** The body rows, in order. */
  function RowsHtml(rows: seq<seq<string>>): string {
    if rows == [] then [] else RowsHtml(rows[..|rows| - 1]) + RowHtml(rows[|rows| - 1])
  }

  /** The table `flushTable` builds: the first row as the header, the rest as body rows. */
  function TableMarkup(header: seq<string>, body: seq<seq<string>>): string {
    TableOpen + CellsHtml("th", header) + HeadClose + RowsHtml(body) + TableClose
  }

  function BlockHtml(b: Block): string {
    match b
    case ListOpen => "<ul class=\"prose-list space-y-1 my-4\">"
    case ListClose => "</ul>"
    case Item(t) => "<li>" + t + "</li>"
    case Spacer => "<div class=\"h-4\"></div>"
    case Paragraph(t) => "<p class=\"mb-4\">" + t + "</p>"
    case TableBlock(h, rows) => TableMarkup(h, rows)
  }

  /** The strings of `result`, piece by piece. */
  function Htmls(blocks: seq<Block>): (r: seq<string>)
    ensures |r| == |blocks|
  {
    if blocks == [] then [] else Htmls(blocks[..|blocks| - 1]) + [BlockHtml(blocks[|blocks| - 1])]
  }

  lemma HtmlsAppend(blocks: seq<Block>, b: Block)
    ensures Htmls(blocks + [b]) == Htmls(blocks) + [BlockHtml(b)]
  {
    assert (blocks + [b])[..|blocks|] == blocks;
  }

  /** `result.join('')`. */
  function Html(blocks: seq<Block>): string {
    Strings.Concat(Htmls(blocks))
  }

  // ---------------------------------------------------------------------------
  // The line state machine

  /** The loop's state: `result`, `currentTable`, `inTable` and `inList`. */
  datatype Machine = Machine(result: seq<Block>, table: seq<seq<string>>, inTable: bool, inList: bool)

  function Start(): Machine {
    Machine([], [], false, false)
  }

  predicate IsTableLine(line: string) {
    Strings.StartsWith(line, "|")
  }

  predicate IsListLine(line: string) {
    Strings.StartsWith(line, "- ") || Strings.StartsWith(line, "* ")
  }

  /** `line.split('|').filter((c, idx, arr) => idx > 0 && idx < arr.length - 1).map(c => c.trim())`:
      the trimmed pieces strictly between the first and the last. */
  function Cells(line: string): (cells: seq<string>)
  {
    var ps := Strings.Split(line, '|');
    var n := if |ps| >= 2 then |ps| - 2 else 0;
    seq(n, i requires 0 <= i < n => Strings.Trim(ps[i + 1]))
  }

  /** `flushTable`: a non-empty table becomes one block and is emptied; an empty one
      adds nothing. */
  function Flush(m: Machine): Machine {
    if |m.table| > 0 then m.(result := m.result + [TableBlock(m.table[0], m.table[1..])], table := [])
    else m
  }

  /** A table line: table mode is on, and the row is kept unless it holds `---`. */
  function TableRow(m: Machine, line: string): Machine {
    var m1 := m.(inTable := true);
    if Strings.Contains(line, "---") then m1 else m1.(table := m1.table + [Cells(line)])
  }

  /** The table, if one was being collected, is flushed and table mode ends. */
  function LeaveTable(m: Machine): Machine {
    if m.inTable then Flush(m).(inTable := false) else m
  }

  /** `<ul>` is pushed unless a list is already open. */
  function OpenList(m: Machine): Machine {
    if !m.inList then m.(result := m.result + [ListOpen], inList := true) else m
  }

  /** `</ul>` is pushed if a list is open. */
  function CloseList(m: Machine): Machine {
    if m.inList then m.(result := m.result + [ListClose], inList := false) else m
  }

  function Push(m: Machine, b: Block): Machine {
    m.(result := m.result + [b])
  }

  /** A blank line is a spacer, any other line a paragraph. */
  function TextBlock(line: string): Block {
    if line == [] then Spacer else Paragraph(line)
  }

  /** What a trimmed line that is not a table line does. */
  function Other(m: Machine, line: string): Machine {
    if IsListLine(line) then Push(OpenList(m), Item(line[2..])) else Push(CloseList(m), TextBlock(line))
  }

  /** One pass of the `for` loop over a line: trim it, then test for a table row, then for
      a list item. */
  function Step(m: Machine, raw: string): Machine {
    var line := Strings.Trim(raw);
    if IsTableLine(line) then TableRow(m, line) else Other(LeaveTable(m), line)
  }

  /** The state after the loop has seen `lines`. */
  function Feed(lines: seq<string>): Machine {
    if lines == [] then Start() else Step(Feed(lines[..|lines| - 1]), lines[|lines| - 1])
  }

  /** After the loop: flush an open table, close an open list. */
  function Finish(m: Machine): seq<Block> {
    CloseList(if m.inTable then Flush(m) else m).result
  }

  function RenderBlocks(lines: seq<string>): seq<Block> {
    Finish(Feed(lines))
  }

  /** `renderMarkdown`: empty text renders as the empty string; otherwise the escaped text
      goes through the remaining regular-expression rewrites (`chain`, not modelled here),
      is split into lines and rendered by the loop. */
  function Rendered(text: string, chain: string -> string): string {
    if text == [] then [] else Html(RenderBlocks(Strings.Split(chain(Escape(text)), '\n')))
  }

  lemma RenderedEmpty(chain: string -> string)
    ensures Rendered("", chain) == ""
  {
  }

  // ---------------------------------------------------------------------------
  // The loop as the source writes it

  /** `<tag>cell</tag>` for each cell, appended to `html` (one `forEach`). */
  method AppendCells(html: string, tag: string, cells: seq<string>) returns (out: string)
    ensures out == html + CellsHtml(tag, cells)
  {
    out := html;
    for k := 0 to |cells|
      invariant out == html + CellsHtml(tag, cells[..k])
    {
      assert cells[..k + 1][..k] == cells[..k];
      out := out + ("<" + tag + ">" + cells[k] + "</" + tag + ">");
    }
    assert cells[..|cells|] == cells;
  }

  /** One pass of the `for (let j …)` loop: a row appended to `html`. */
  method AppendRow(html: string, row: seq<string>) returns (out: string)
    ensures out == html + RowHtml(row)
  {
    var cells := AppendCells(html + "<tr>", "td", row);
    out := cells + "</tr>";
  }

  /** The string `flushTable` accumulates in `tableHtml`. */
  method TableHtml(header: seq<string>, body: seq<seq<string>>) returns (html: string)
    ensures html == TableMarkup(header, body)
  {
    html := AppendCells(TableOpen, "th", header);
    html := html + HeadClose;
    ghost var head := html;
    for j := 0 to |body|
      invariant html == head + RowsHtml(body[..j])
    {
      assert body[..j + 1][..j] == body[..j];
      html := AppendRow(html, body[j]);
      assert html == head + (RowsHtml(body[..j]) + RowHtml(body[j]));
    }
    assert body[..|body|] == body;
    html := html + TableClose;
  }

  /** `flushTable` on the loop's variables. */
  method FlushTable(result: seq<string>, ghost blocks: seq<Block>, table: seq<seq<string>>)
    returns (result': seq<string>, ghost blocks': seq<Block>, table': seq<seq<string>>)
    requires result == Htmls(blocks)
    ensures result' == Htmls(blocks')
    ensures Flush(Machine(blocks, table, true, false)) == Machine(blocks', table', true, false)
  {
    result', blocks', table' := result, blocks, table;
    if |table| > 0 {
      var tableHtml := TableHtml(table[0], table[1..]);
      HtmlsAppend(blocks, TableBlock(table[0], table[1..]));
      result' := result + [tableHtml];
      blocks' := blocks + [TableBlock(table[0], table[1..])];
      table' := [];
    }
  }

  /** `result.push(piece)` on the loop's variables. */
  method PushPiece(result: seq<string>, ghost blocks: seq<Block>, piece: string, ghost b: Block)
    returns (result': seq<string>, ghost blocks': seq<Block>)
    requires result == Htmls(blocks) && piece == BlockHtml(b)
    ensures result' == Htmls(blocks') && blocks' == blocks + [b]
  {
    HtmlsAppend(blocks, b);
    result', blocks' := result + [piece], blocks + [b];
  }

  /** One iteration of the loop body. */
  method RenderLine(result: seq<string>, ghost blocks: seq<Block>, table: seq<seq<string>>,
                    inTable: bool, inList: bool, raw: string)
    returns (result': seq<string>, ghost blocks': seq<Block>, table': seq<seq<string>>,
             inTable': bool, inList': bool)
    requires result == Htmls(blocks)
    ensures result' == Htmls(blocks')
    ensures Machine(blocks', table', inTable', inList') == Step(Machine(blocks, table, inTable, inList), raw)
  {
    result', blocks', table', inTable', inList' := result, blocks, table, inTable, inList;
    var line := Strings.Trim(raw);
    if IsTableLine(line) {
      inTable' := true;
      var cells := Cells(line);
      if !Strings.Contains(line, "---") {
        table' := table + [cells];
      }
      return;
    }
    ghost var m := Machine(blocks, table, inTable, inList);
    if inTable {
      result', blocks', table' := FlushTable(result, blocks, table);
      inTable' := false;
    }
    assert Machine(blocks', table', inTable', inList') == LeaveTable(m);
    ghost var m1 := Machine(blocks', table', inTable', inList');
    if IsListLine(line) {
      if !inList' {
        result', blocks' := PushPiece(result', blocks', "<ul class=\"prose-list space-y-1 my-4\">", ListOpen);
        inList' := true;
      }
      assert Machine(blocks', table', inTable', inList') == OpenList(m1);
      result', blocks' := PushPiece(result', blocks', "<li>" + line[2..] + "</li>", Item(line[2..]));
    } else {
      if inList' {
        result', blocks' := PushPiece(result', blocks', "</ul>", ListClose);
        inList' := false;
      }
      assert Machine(blocks', table', inTable', inList') == CloseList(m1);
      if line == [] {
        result', blocks' := PushPiece(result', blocks', "<div class=\"h-4\"></div>", Spacer);
      } else {
        result', blocks' := PushPiece(result', blocks', "<p class=\"mb-4\">" + line + "</p>", Paragraph(line));
      }
    }
  }

  /** The line loop and the closing steps, joined with `''`. */
  method RenderLines(lines: seq<string>) returns (html: string)
    ensures html == Html(RenderBlocks(lines))
  {
    var result: seq<string> := [];
    var table: seq<seq<string>> := [];
    var inTable, inList := false, false;
    ghost var blocks: seq<Block> := [];
    for i := 0 to |lines|
      invariant result == Htmls(blocks)
      invariant Feed(lines[..i]) == Machine(blocks, table, inTable, inList)
    {
      assert lines[..i + 1][..i] == lines[..i];
      result, blocks, table, inTable, inList := RenderLine(result, blocks, table, inTable, inList, lines[i]);
    }
    assert lines[..|lines|] == lines;
    if inTable {
      result, blocks, table := FlushTable(result, blocks, table);
    }
    if inList {
      result, blocks := PushPiece(result, blocks, "</ul>", ListClose);
    }
    html := Strings.Concat(result);
  }

  /** `renderMarkdown`, with the rewrites after the escape given as `chain`. */
  method RenderMarkdown(text: string, chain: string -> string) returns (out: string)
    ensures out == Rendered(text, chain)
  {
    if text == [] {
      return "";
    }
    var html := chain(Escape(text));
    var lines := Strings.Split(html, '\n');
    out := RenderLines(lines);
  }

  // ---------------------------------------------------------------------------
  // What the output looks like

  /** Whether a list is open after `blocks`, or `None` when a list piece appears where it
      cannot: an `<ul>` inside an open list, a `</ul>` or an item outside one, a paragraph
      or spacer inside one. */
  function Walk(blocks: seq<Block>): Option<bool> {
    if blocks == [] then Some(false)
    else
      match Walk(blocks[..|blocks| - 1])
      case None => None
      case Some(open) => Move(open, blocks[|blocks| - 1])
  }

  function Move(open: bool, b: Block): Option<bool> {
    match b
    case ListOpen => if open then None else Some(true)
    case ListClose => if open then Some(false) else None
    case Item(_) => if open then Some(true) else None
    case Spacer => if open then None else Some(false)
    case Paragraph(_) => if open then None else Some(false)
    case TableBlock(_, _) => Some(open)
  }

  lemma WalkAppend(blocks: seq<Block>, b: Block, open: bool)
    requires Walk(blocks) == Some(open)
    ensures Walk(blocks + [b]) == Move(open, b)
  {
    assert (blocks + [b])[..|blocks|] == blocks;
  }

  /** The list flag of the state agrees with the blocks pushed so far. */
  predicate Tracks(m: Machine) {
    Walk(m.result) == Some(m.inList)
  }

  lemma FlushWalk(m: Machine)
    requires Tracks(m)
    ensures Tracks(Flush(m)) && Tracks(LeaveTable(m))
  {
    if |m.table| > 0 {
      WalkAppend(m.result, TableBlock(m.table[0], m.table[1..]), m.inList);
    }
  }

  lemma StepWalk(m: Machine, raw: string)
    requires Tracks(m)
    ensures Tracks(Step(m, raw))
  {
    var line := Strings.Trim(raw);
    if !IsTableLine(line) {
      var m1 := LeaveTable(m);
      FlushWalk(m);
      if IsListLine(line) {
        if !m1.inList { WalkAppend(m1.result, ListOpen, false); }
        WalkAppend(OpenList(m1).result, Item(line[2..]), true);
      } else {
        if m1.inList { WalkAppend(m1.result, ListClose, true); }
        WalkAppend(CloseList(m1).result, TextBlock(line), false);
      }
    }
  }

  lemma {:induction false} FeedWalk(lines: seq<string>)
    ensures Tracks(Feed(lines))
  {
    if lines != [] {
      FeedWalk(lines[..|lines| - 1]);
      StepWalk(Feed(lines[..|lines| - 1]), lines[|lines| - 1]);
    }
  }

  /** Lists are well nested: no `<ul>` opens inside an open list, no `</ul>` closes one
      that is not open, items only appear inside a list, paragraphs and spacers only
      outside one, and no list is left open at the end. `OneListPerRun` counts them. */
  lemma ListsBalanced(lines: seq<string>)
    ensures Walk(RenderBlocks(lines)) == Some(false)
  {
    var m := Feed(lines);
    FeedWalk(lines);
    FlushWalk(m);
    var m1 := if m.inTable then Flush(m) else m;
    if m1.inList { WalkAppend(m1.result, ListClose, true); }
  }

  // ---------------------------------------------------------------------------
  // Counting what the lines become

  predicate IsItem(b: Block) { b.Item? }
  predicate IsText(b: Block) { b.Spacer? || b.Paragraph? }

  predicate ListLine(raw: string) { IsListLine(Strings.Trim(raw)) }
  predicate TextLine(raw: string) {
    !IsTableLine(Strings.Trim(raw)) && !IsListLine(Strings.Trim(raw))
  }

  lemma CountIfAppend<T>(a: seq<T>, b: seq<T>, p: T -> bool)
    ensures Seqs.CountIf(a + b, p) == Seqs.CountIf(a, p) + Seqs.CountIf(b, p)
  {
    Seqs.FilterAppend(a, b, p);
  }

  lemma CountOne<T>(x: T, p: T -> bool)
    ensures Seqs.CountIf([x], p) == if p(x) then 1 else 0
  {
    assert [x][1..] == [];
  }

  /** Adding `b` adds one to a count exactly when `b` is counted. */
  lemma CountPush<T>(s: seq<T>, x: T, p: T -> bool)
    ensures Seqs.CountIf(s + [x], p) == Seqs.CountIf(s, p) + (if p(x) then 1 else 0)
  {
    CountIfAppend(s, [x], p);
    CountOne(x, p);
  }

  /** The numbers of items and of paragraphs or spacers pushed so far. */
  function Items(m: Machine): nat { Seqs.CountIf(m.result, IsItem) }
  function Texts(m: Machine): nat { Seqs.CountIf(m.result, IsText) }

  lemma PushCounts(m: Machine, b: Block)
    ensures Items(Push(m, b)) == Items(m) + (if IsItem(b) then 1 else 0)
    ensures Texts(Push(m, b)) == Texts(m) + (if IsText(b) then 1 else 0)
  {
    CountPush(m.result, b, IsItem);
    CountPush(m.result, b, IsText);
  }

  /** Flushing, opening and closing never push an item, a paragraph or a spacer. */
  lemma StageCounts(m: Machine)
    ensures Items(Flush(m)) == Items(m) && Texts(Flush(m)) == Texts(m)
    ensures Items(LeaveTable(m)) == Items(m) && Texts(LeaveTable(m)) == Texts(m)
    ensures Items(OpenList(m)) == Items(m) && Texts(OpenList(m)) == Texts(m)
    ensures Items(CloseList(m)) == Items(m) && Texts(CloseList(m)) == Texts(m)
  {
    if |m.table| > 0 { PushCounts(m, TableBlock(m.table[0], m.table[1..])); }
    PushCounts(m, ListOpen);
    PushCounts(m, ListClose);
  }

  lemma StepCounts(m: Machine, raw: string)
    ensures Items(Step(m, raw)) == Items(m) + (if ListLine(raw) then 1 else 0)
    ensures Texts(Step(m, raw)) == Texts(m) + (if TextLine(raw) then 1 else 0)
  {
    var line := Strings.Trim(raw);
    if IsTableLine(line) {
      assert line[0] == '|';
    } else {
      var m1 := LeaveTable(m);
      StageCounts(m);
      if IsListLine(line) {
        StageCounts(m1);
        PushCounts(OpenList(m1), Item(line[2..]));
      } else {
        StageCounts(m1);
        PushCounts(CloseList(m1), TextBlock(line));
      }
    }
  }

  lemma {:induction false} FeedCounts(lines: seq<string>)
    ensures Items(Feed(lines)) == Seqs.CountIf(lines, ListLine)
    ensures Texts(Feed(lines)) == Seqs.CountIf(lines, TextLine)
  {
    if lines != [] {
      var init, last := lines[..|lines| - 1], lines[|lines| - 1];
      var m := Feed(init);
      assert lines == init + [last];
      calc {
        Items(Feed(lines));
      ==
        Items(Step(m, last));
      == { StepCounts(m, last); }
        Items(m) + (if ListLine(last) then 1 else 0);
      == { FeedCounts(init); CountPush(init, last, ListLine); }
        Seqs.CountIf(lines, ListLine);
      }
      calc {
        Texts(Feed(lines));
      ==
        Texts(Step(m, last));
      == { StepCounts(m, last); }
        Texts(m) + (if TextLine(last) then 1 else 0);
      == { FeedCounts(init); CountPush(init, last, TextLine); }
        Seqs.CountIf(lines, TextLine);
      }
    }
  }

  /** Each list line (`- ` or `* ` after trimming) becomes exactly one `<li>`, and each line
      that is neither a list nor a table line becomes exactly one paragraph or spacer. */
  lemma LineCounts(lines: seq<string>)
    ensures Seqs.CountIf(RenderBlocks(lines), IsItem) == Seqs.CountIf(lines, ListLine)
    ensures Seqs.CountIf(RenderBlocks(lines), IsText) == Seqs.CountIf(lines, TextLine)
  {
    var m := Feed(lines);
    FeedCounts(lines);
    StageCounts(m);
    StageCounts(if m.inTable then Flush(m) else m);
  }

  // ---------------------------------------------------------------------------
  // Runs of list lines

  predicate IsOpen(b: Block) { b.ListOpen? }
  predicate IsClose(b: Block) { b.ListClose? }

  /** Whether the lines leave a list open: a table line keeps what was before it, a list
      line opens one and any other line closes it. */
  function ListOpenAfter(lines: seq<string>): bool {
    if lines == [] then false
    else if IsTableLine(Strings.Trim(lines[|lines| - 1])) then ListOpenAfter(lines[..|lines| - 1])
    else ListLine(lines[|lines| - 1])
  }

  /** The number of runs of list lines: list lines that come while no list is open. Table
      lines between two list lines do not end the run. */
  function ListRuns(lines: seq<string>): nat {
    if lines == [] then 0
    else
      var init := lines[..|lines| - 1];
      ListRuns(init) + (if ListLine(lines[|lines| - 1]) && !ListOpenAfter(init) then 1 else 0)
  }

  function Opens(m: Machine): nat { Seqs.CountIf(m.result, IsOpen) }
  function Closes(m: Machine): nat { Seqs.CountIf(m.result, IsClose) }

  lemma StageRuns(m: Machine)
    ensures Opens(Flush(m)) == Opens(m) && Closes(Flush(m)) == Closes(m) && Flush(m).inList == m.inList
    ensures Opens(LeaveTable(m)) == Opens(m) && Closes(LeaveTable(m)) == Closes(m)
    ensures LeaveTable(m).inList == m.inList
  {
    if |m.table| > 0 { PushRuns(m, TableBlock(m.table[0], m.table[1..])); }
  }

  lemma PushRuns(m: Machine, b: Block)
    ensures Opens(Push(m, b)) == Opens(m) + (if IsOpen(b) then 1 else 0)
    ensures Closes(Push(m, b)) == Closes(m) + (if IsClose(b) then 1 else 0)
  {
    CountPush(m.result, b, IsOpen);
    CountPush(m.result, b, IsClose);
  }

  /** Opening pushes a `<ul>` exactly when no list is open, closing a `</ul>` exactly when
      one is. */
  lemma ToggleRuns(m: Machine)
    ensures Opens(OpenList(m)) == Opens(m) + (if m.inList then 0 else 1) && Closes(OpenList(m)) == Closes(m)
    ensures Closes(CloseList(m)) == Closes(m) + (if m.inList then 1 else 0) && Opens(CloseList(m)) == Opens(m)
  {
    PushRuns(m, ListOpen);
    PushRuns(m, ListClose);
  }

  /** One line pushes a `<ul>` exactly when it is a list line and no list is open, and a
      `</ul>` exactly when it is a text line and a list is open. */
  lemma StepRuns(m: Machine, raw: string)
    ensures Step(m, raw).inList == if IsTableLine(Strings.Trim(raw)) then m.inList else ListLine(raw)
    ensures Opens(Step(m, raw)) == Opens(m) + (if ListLine(raw) && !m.inList then 1 else 0)
    ensures Closes(Step(m, raw)) == Closes(m) + (if TextLine(raw) && m.inList then 1 else 0)
  {
    var line := Strings.Trim(raw);
    if IsTableLine(line) {
      assert line[0] == '|';
    } else {
      var m1 := LeaveTable(m);
      StageRuns(m);
      ToggleRuns(m1);
      if IsListLine(line) {
        PushRuns(OpenList(m1), Item(line[2..]));
      } else {
        PushRuns(CloseList(m1), TextBlock(line));
      }
    }
  }

  lemma {:induction false} FeedRuns(lines: seq<string>)
    ensures Feed(lines).inList == ListOpenAfter(lines)
    ensures Opens(Feed(lines)) == ListRuns(lines)
    ensures Closes(Feed(lines)) + (if ListOpenAfter(lines) then 1 else 0) == ListRuns(lines)
  {
    if lines != [] {
      var init, last := lines[..|lines| - 1], lines[|lines| - 1];
      FeedRuns(init);
      StepRuns(Feed(init), last);
    }
  }

  /** Each run of list lines opens exactly one `<ul>` and closes it exactly once: the
      rendered blocks hold as many `<ul>` and as many `</ul>` as the lines hold runs. */
  lemma OneListPerRun(lines: seq<string>)
    ensures Seqs.CountIf(RenderBlocks(lines), IsOpen) == ListRuns(lines)
    ensures Seqs.CountIf(RenderBlocks(lines), IsClose) == ListRuns(lines)
  {
    var m := Feed(lines);
    FeedRuns(lines);
    StageRuns(m);
    ToggleRuns(if m.inTable then Flush(m) else m);
  }

  // ---------------------------------------------------------------------------
  // Tables

  /** The rows a run of table lines collects: separator rows (any `---`) are dropped. */
  function TableRows(lines: seq<string>): seq<seq<string>> {
    if lines == [] then []
    else
      var line := Strings.Trim(lines[|lines| - 1]);
      TableRows(lines[..|lines| - 1]) + (if Strings.Contains(line, "---") then [] else [Cells(line)])
  }

  lemma {:induction false} FeedTable(lines: seq<string>)
    requires forall i :: 0 <= i < |lines| ==> IsTableLine(Strings.Trim(lines[i]))
    ensures Feed(lines) == Machine([], TableRows(lines), lines != [], false)
  {
    if lines != [] {
      var init := lines[..|lines| - 1];
      forall i | 0 <= i < |init| ensures IsTableLine(Strings.Trim(init[i])) {
        assert init[i] == lines[i];
      }
      FeedTable(init);
    }
  }

  /** Text made only of table lines renders as one table whose header is the first kept
      row, or as nothing when every row was a separator. */
  lemma TableOnly(lines: seq<string>)
    requires forall i :: 0 <= i < |lines| ==> IsTableLine(Strings.Trim(lines[i]))
    ensures var rows := TableRows(lines);
      RenderBlocks(lines) == if rows == [] then [] else [TableBlock(rows[0], rows[1..])]
  {
    FeedTable(lines);
  }

  /** The first line that is not a table line flushes the table collected so far, before
      anything else is pushed, and leaves table mode. */
  lemma FlushOnLeave(m: Machine, raw: string)
    requires m.inTable && !IsTableLine(Strings.Trim(raw))
    ensures var m' := Step(m, raw);
      m'.table == [] && !m'.inTable
      && Flush(m).result <= m'.result
      && (m.table == [] ==> Flush(m).result == m.result)
  {
  }

  // ---------------------------------------------------------------------------
  // applyFormatting

  /** The new content and the new cursor position. */
  datatype Edit = Edit(value: string, cursor: nat)

  /** Where the line holding index `i` starts: just after the last `\n` before `i`. */
  function LineStart(value: string, i: nat): (ls: nat)
    requires i <= |value|
    ensures ls <= i
    ensures ls == 0 || value[ls - 1] == '\n'
    ensures forall j :: ls <= j < i ==> value[j] != '\n'
  {
    Strings.LastIndexOf(value[..i], '\n') + 1
  }

  /** `applyFormatting(prefix, suffix, isLineStart)` on the textarea's value and selection
      (the textarea keeps `selectionStart <= selectionEnd <= value.length`). */
  function ApplyFormatting(value: string, selStart: nat, selEnd: nat, prefix: string, suffix: string,
                           isLineStart: bool): (e: Edit)
    requires selStart <= selEnd <= |value|
    ensures isLineStart ==> e.cursor == selStart + |prefix|
    ensures !isLineStart ==> e.cursor == selStart + |prefix| + (selEnd - selStart)
    ensures |e.value| == |value| + |prefix| + (if isLineStart then 0 else |suffix|)
  {
    if isLineStart then
      var ls := LineStart(value, selStart);
      Edit(value[..ls] + prefix + value[ls..], selStart + |prefix|)
    else
      Edit(value[..selStart] + prefix + value[selStart..selEnd] + suffix + value[selEnd..],
           selStart + |prefix| + (selEnd - selStart))
  }

  /** `v` with the `n` characters at `i` taken out. */
  function Cut(v: string, i: nat, n: nat): string
    requires i + n <= |v|
  {
    v[..i] + v[i + n..]
  }

  /** The five pieces of an inline edit can be read back from their concatenation. */
  lemma Pieces(a: string, p: string, m: string, q: string, z: string, v: string, c: nat)
    requires v == a + p + m + q + z && c == |a| + |p| + |m|
    ensures v[..|a|] == a && v[|a|..|a| + |p|] == p && v[|a| + |p|..c] == m
    ensures v[c..c + |q|] == q && v[c + |q|..] == z
    ensures Cut(Cut(v, c, |q|), |a|, |p|) == a + m + z
  {
    assert v == (a + p + m) + (q + z);
    assert Cut(v, c, |q|) == (a + p + m) + z;
    assert a + p + m + z == a + (p + (m + z));
  }

  /** Inline mode wraps the selection: the text before is kept, the prefix and the
      selection come next, the cursor sits just before the suffix, the text after
      follows, and cutting out suffix and prefix gives back the original. */
  lemma InlineSpec(value: string, s: nat, t: nat, prefix: string, suffix: string)
    requires s <= t <= |value|
    ensures var e := ApplyFormatting(value, s, t, prefix, suffix, false);
      e.value[..s] == value[..s]
      && e.value[s..s + |prefix|] == prefix
      && e.value[s + |prefix|..e.cursor] == value[s..t]
      && e.value[e.cursor..e.cursor + |suffix|] == suffix
      && e.value[e.cursor + |suffix|..] == value[t..]
      && Cut(Cut(e.value, e.cursor, |suffix|), s, |prefix|) == value
  {
    var a, m, z := value[..s], value[s..t], value[t..];
    var e := ApplyFormatting(value, s, t, prefix, suffix, false);
    Pieces(a, prefix, m, suffix, z, e.value, e.cursor);
    Slices(value, s, t);
  }

  lemma Slices(v: string, s: nat, t: nat)
    requires s <= t <= |v|
    ensures v[..s] + v[s..t] + v[t..] == v
  {
    assert v[..s] + v[s..t] == v[..t];
  }

  /** Line mode puts the prefix at the start of the selection's line: the text before is
      kept, the cursor stays in front of the same text, and cutting the prefix out gives
      back the original. */
  lemma LineStartSpec(value: string, s: nat, t: nat, prefix: string, suffix: string)
    requires s <= t <= |value|
    ensures var e := ApplyFormatting(value, s, t, prefix, suffix, true);
      var ls := LineStart(value, s);
      e.value[..ls] == value[..ls]
      && e.value[ls..ls + |prefix|] == prefix
      && e.value[ls + |prefix|..] == value[ls..]
      && e.value[e.cursor..] == value[s..]
      && Cut(e.value, ls, |prefix|) == value
  {
    var ls := LineStart(value, s);
    var e := ApplyFormatting(value, s, t, prefix, suffix, true);
    assert e.value == value[..ls] + prefix + value[ls..];
    assert value[..ls] + value[ls..] == value;
    assert e.value[e.cursor..] == value[ls..][s - ls..];
  }

  /** The toolbar buttons. */
  datatype Tool = H1 | H2 | Bold | Italic | Bullet | Checklist | InsertTable | WikiLink

  const TableTemplate: string :=
    "\n| Header 1 | Header 2 |\n| :--- | :--- |\n| Row 1 | Data |\n| Row 2 | Data |\n"

  /** The arguments each button passes: prefix, suffix, and whether it works at line start. */
  function ToolPrefix(t: Tool): string {
    match t
    case H1 => "# "
    case H2 => "## "
    case Bold => "**"
    case Italic => "*"
    case Bullet => "- "
    case Checklist => "- [ ] "
    case InsertTable => TableTemplate
    case WikiLink => "[["
  }

  function ToolSuffix(t: Tool): string {
    match t
    case Bold => "**"
    case Italic => "*"
    case WikiLink => "]]"
    case _ => ""
  }

  predicate AtLineStart(t: Tool) {
    t == H1 || t == H2 || t == Bullet || t == Checklist
  }

  function ApplyTool(t: Tool, value: string, s: nat, e: nat): Edit
    requires s <= e <= |value|
  {
    ApplyFormatting(value, s, e, ToolPrefix(t), ToolSuffix(t), AtLineStart(t))
  }

  /** The wiki-link button wraps the selection in `[[`/`]]`; the checklist, H1 and H2
      buttons put their markers at the start of the line; the table button inserts the
      template before the selection and leaves the cursor after the template and the
      selected text. */
  lemma ToolPresets(value: string, s: nat, e: nat)
    requires s <= e <= |value|
    ensures ApplyTool(WikiLink, value, s, e).value == value[..s] + "[[" + value[s..e] + "]]" + value[e..]
    ensures var ls := LineStart(value, s);
      ApplyTool(Checklist, value, s, e).value == value[..ls] + "- [ ] " + value[ls..]
      && ApplyTool(H1, value, s, e).value == value[..ls] + "# " + value[ls..]
      && ApplyTool(H2, value, s, e).value == value[..ls] + "## " + value[ls..]
    ensures ApplyTool(InsertTable, value, s, e).value == value[..s] + TableTemplate + value[s..e] + value[e..]
    ensures ApplyTool(InsertTable, value, s, e).cursor == e + |TableTemplate|
  {
    assert value[..s] + TableTemplate + value[s..e] + "" + value[e..] == value[..s] + TableTemplate + value[s..e] + value[e..];
  }
}
