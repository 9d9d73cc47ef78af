/** The flat image dealt out to the memory banks, line by line, and to the cells of a bank, word by word. */
module BankTables {
  import opened Counting
  import opened X86Memory

  datatype Error = LinesNotDivisible | CellsNotDivisible | UnsupportedWidth
  datatype Outcome<T> = Built(value: T) | Failed(error: Error)

  type Word = seq<Byte>

  /** tables[bank][cell] lists the words of a cell, one for each of its bank's lines. */
  type Tables = seq<seq<seq<Word>>>

  datatype Shape = Shape(banks: nat, line: nat, cells: nat) {
    predicate Valid() { banks > 0 && cells > 0 && line > 0 && line % cells == 0 }

    function Width(): nat
      requires Valid()
    {
      line / cells
    }
  }

  lemma WidthFills(s: Shape)
    requires s.Valid()
    ensures s.Width() > 0 && s.Width() * s.cells == s.line
  {
    assert s.line == s.cells * (s.line / s.cells) + s.line % s.cells;
  }

  /** Where a word of a line starts. */
  function Start(s: Shape, g: nat, c: nat): nat
    requires s.Valid()
  {
    g * s.line + c * s.Width()
  }

  lemma WordFits(s: Shape, g: nat, c: nat, lines: nat)
    requires s.Valid() && g < lines && c < s.cells
    ensures Start(s, g, c) + s.Width() <= g * s.line + s.line <= lines * s.line
  {
    WidthFills(s);
    var w := s.Width();
    if s.cells - c > 1 { AtLeast(w, s.cells - c - 1); }
    assert w * (s.cells - c - 1) == w * s.cells - c * w - w;
    assert s.line * (lines - g - 1) == lines * s.line - g * s.line - s.line;
    if lines - g > 1 { AtLeast(s.line, lines - g - 1); }
    hide Shape.Width;
  }

  predicate InImage(s: Shape, image: seq<Byte>, lines: nat)
    requires s.Valid()
  {
    lines * s.line <= |image|
  }

  function WordAt(s: Shape, image: seq<Byte>, lines: nat, g: nat, c: nat): (w: Word)
    requires s.Valid() && g < lines && c < s.cells && InImage(s, image, lines)
    ensures |w| == s.Width()
  {
    WordFits(s, g, c, lines);
    image[Start(s, g, c)..Start(s, g, c) + s.Width()]
  }

  /** The lines of bank `b` among the first `g`. */
  function LinesOf(g: nat, b: nat, banks: nat): nat
    requires banks > 0
  {
    g / banks + if b < g % banks then 1 else 0
  }

  /** The line of the image that is line `l` of bank `b`. */
  function GlobalLine(l: nat, b: nat, banks: nat): nat { banks * l + b }

  lemma NextLine(g: nat, b: nat, banks: nat)
    requires b < banks
    ensures LinesOf(g + 1, b, banks) == LinesOf(g, b, banks) + if b == g % banks then 1 else 0
    ensures GlobalLine(g / banks, g % banks, banks) == g
  {
    NextQuotient(g, banks);
    assert g == banks * (g / banks) + g % banks;
  }

  lemma NextQuotient(g: nat, banks: nat)
    requires banks > 0
    ensures (g + 1) / banks == g / banks + if g % banks + 1 < banks then 0 else 1
    ensures (g + 1) % banks == if g % banks + 1 < banks then g % banks + 1 else 0
  {
    var l, r := g / banks, g % banks;
    assert g == banks * l + r;
    if r + 1 < banks {
      Remainder(l, r + 1, banks);
    } else {
      assert g + 1 == banks * (l + 1) + 0;
      Remainder(l + 1, 0, banks);
    }
  }

  /** The first `g` lines have been dealt out. */
  ghost predicate Dealt(t: Tables, s: Shape, image: seq<Byte>, lines: nat, g: nat)
    requires s.Valid() && InImage(s, image, lines) && g <= lines
  {
    && |t| == s.banks
    && forall b :: 0 <= b < s.banks ==> |t[b]| == s.cells && forall c :: 0 <= c < s.cells ==> CellDealt(t[b][c], s, image, lines, g, b, c)
  }

  ghost predicate CellDealt(words: seq<Word>, s: Shape, image: seq<Byte>, lines: nat, g: nat, b: nat, c: nat)
    requires s.Valid() && InImage(s, image, lines) && g <= lines && b < s.banks && c < s.cells
  {
    && |words| == LinesOf(g, b, s.banks)
    && forall l :: 0 <= l < |words| ==> GlobalLine(l, b, s.banks) < lines && words[l] == WordAt(s, image, lines, GlobalLine(l, b, s.banks), c)
  }

  lemma CellGrows(words: seq<Word>, s: Shape, image: seq<Byte>, lines: nat, g: nat, c: nat)
    requires s.Valid() && InImage(s, image, lines) && g < lines && c < s.cells
    requires CellDealt(words, s, image, lines, g, g % s.banks, c)
    ensures CellDealt(words + [WordAt(s, image, lines, g, c)], s, image, lines, g + 1, g % s.banks, c)
  {
    hide WordAt, LinesOf;
    NextLine(g, g % s.banks, s.banks);
    LinesSoFar(g, s.banks);
  }

  lemma LinesSoFar(g: nat, banks: nat)
    requires banks > 0
    ensures LinesOf(g, g % banks, banks) == g / banks
  {
  }

  lemma OthersWait(words: seq<Word>, s: Shape, image: seq<Byte>, lines: nat, g: nat, b: nat, c: nat)
    requires s.Valid() && InImage(s, image, lines) && g < lines && b < s.banks && b != g % s.banks && c < s.cells
    requires CellDealt(words, s, image, lines, g, b, c)
    ensures CellDealt(words, s, image, lines, g + 1, b, c)
  {
    hide WordAt;
    NextLine(g, b, s.banks);
  }

  lemma NoLines(s: Shape, image: seq<Byte>, lines: nat)
    requires s.Valid() && InImage(s, image, lines)
    ensures Dealt(seq(s.banks, _ => seq(s.cells, _ => [])), s, image, lines, 0)
  {
  }

  lemma LineDealt(t: Tables, row: seq<seq<Word>>, s: Shape, image: seq<Byte>, lines: nat, g: nat)
    requires s.Valid() && InImage(s, image, lines) && g < lines && Dealt(t, s, image, lines, g) && |row| == s.cells
    requires forall c :: 0 <= c < s.cells ==> row[c] == t[g % s.banks][c] + [WordAt(s, image, lines, g, c)]
    ensures Dealt(t[g % s.banks := row], s, image, lines, g + 1)
  {
    var u := t[g % s.banks := row];
    forall b, c | 0 <= b < s.banks && 0 <= c < s.cells ensures CellDealt(u[b][c], s, image, lines, g + 1, b, c) {
      if b == g % s.banks { CellGrows(t[b][c], s, image, lines, g, c); } else { OthersWait(t[b][c], s, image, lines, g, b, c); }
    }
    hide CellDealt;
  }

  /** The tables, unless the lines do not fill the banks or the cells do not fill a line. */
  method BuildBankTables(image: seq<Byte>, s: Shape) returns (r: Outcome<Tables>)
    requires s.banks > 0 && s.line > 0 && s.cells > 0
    ensures r.Built? <==> (|image| / s.line) % s.banks == 0 && s.line % s.cells == 0
    ensures r.Built? ==> InImage(s, image, |image| / s.line) && Dealt(r.value, s, image, |image| / s.line, |image| / s.line)
  {
    var lines := |image| / s.line;
    if lines % s.banks != 0 { return Failed(LinesNotDivisible); }
    if s.line % s.cells != 0 { return Failed(CellsNotDivisible); }
    assert InImage(s, image, lines) by { assert |image| == s.line * lines + |image| % s.line; }
    var t := seq(s.banks, _ => seq(s.cells, _ => []));
    NoLines(s, image, lines);
    for g := 0 to lines
      invariant Dealt(t, s, image, lines, g)
    {
      var row := DealLine(t[g % s.banks], image, s, lines, g);
      LineDealt(t, row, s, image, lines, g);
      hide Dealt, InImage;
      t := t[g % s.banks := row];
    }
    return Built(t);
  }

  /** The cells of one bank, each with its word of line `g` appended. */
  method DealLine(row: seq<seq<Word>>, image: seq<Byte>, s: Shape, lines: nat, g: nat) returns (r: seq<seq<Word>>)
    requires s.Valid() && InImage(s, image, lines) && g < lines && |row| == s.cells
    ensures |r| == s.cells && forall c :: 0 <= c < s.cells ==> r[c] == row[c] + [WordAt(s, image, lines, g, c)]
  {
    r := row;
    for c := 0 to s.cells
      invariant |r| == s.cells
      invariant forall d :: 0 <= d < c ==> r[d] == row[d] + [WordAt(s, image, lines, g, d)]
      invariant forall d :: c <= d < s.cells ==> r[d] == row[d]
    {
      hide Start, InImage;
      WordFits(s, g, c, lines);
      r := r[c := r[c] + [WordAt(s, image, lines, g, c)]];
    }
  }

  // ---------- addresses and cells ----------

  /** A byte of a cell: its bank, the cell, the line of the bank and the byte of the word. */
  datatype Spot = Spot(bank: nat, cell: nat, index: nat, byte: nat)

  function SpotOf(s: Shape, a: nat): Spot
    requires s.Valid() && s.Width() > 0 && s.banks > 0
  {
    var g, o := Quotient(a, s.line), a % s.line;
    Spot(g % s.banks, Quotient(o, s.Width()), Quotient(g, s.banks), o % s.Width())
  }

  function AddressOf(s: Shape, p: Spot): nat
    requires s.Valid()
  {
    s.line * GlobalLine(p.index, p.bank, s.banks) + (s.Width() * p.cell + p.byte)
  }

  predicate IsSpot(s: Shape, lines: nat, p: Spot)
    requires s.Valid()
  {
    p.bank < s.banks && p.cell < s.cells && p.byte < s.Width() && GlobalLine(p.index, p.bank, s.banks) < lines
  }

  /** Every address of the image has a spot of its own: the two maps undo each other. */
  lemma SpotOfAddress(s: Shape, lines: nat, p: Spot)
    requires s.Valid() && IsSpot(s, lines, p)
    ensures AddressOf(s, p) < s.line * lines
    ensures s.Width() > 0 && SpotOf(s, AddressOf(s, p)) == p
  {
    WidthFills(s);
    InsideLine(s, p);
    var g, o := GlobalLine(p.index, p.bank, s.banks), s.Width() * p.cell + p.byte;
    Remainder(g, o, s.line);
    Remainder(p.cell, p.byte, s.Width());
    Remainder(p.index, p.bank, s.banks);
    assert s.line * (lines - g) == s.line * lines - s.line * g;
    AtLeast(s.line, lines - g);
    hide Shape.Width, GlobalLine;
  }

  lemma InsideLine(s: Shape, p: Spot)
    requires s.Valid() && p.cell < s.cells && p.byte < s.Width()
    ensures s.Width() * p.cell + p.byte < s.line
  {
    WidthFills(s);
    AtLeast(s.Width(), s.cells - p.cell);
    assert s.Width() * (s.cells - p.cell) == s.Width() * s.cells - s.Width() * p.cell;
    hide Shape.Width;
  }

  lemma AddressOfSpot(s: Shape, lines: nat, a: nat)
    requires s.Valid() && s.banks > 0 && a < s.line * lines
    ensures s.Width() > 0 && IsSpot(s, lines, SpotOf(s, a)) && AddressOf(s, SpotOf(s, a)) == a
  {
    WidthFills(s);
    var g, o := a / s.line, a % s.line;
    assert a == s.line * g + o;
    QuotientBelow(g, s.line, lines, o);
    assert g == s.banks * (g / s.banks) + g % s.banks;
    var w := s.Width();
    assert o == w * (o / w) + o % w;
    QuotientBelow(o / w, w, s.cells, o % w);
    hide Shape.Width;
  }

  lemma QuotientBelow(q: nat, n: nat, m: nat, r: nat)
    requires n * q + r < n * m
    ensures q < m
  {
    assert n * (m - q) == n * m - n * q;
    assert n * (m - q) > 0;
  }

  function Cell(t: Tables, p: Spot): Byte
    requires p.bank < |t| && p.cell < |t[p.bank]| && p.index < |t[p.bank][p.cell]| && p.byte < |t[p.bank][p.cell][p.index]|
  {
    t[p.bank][p.cell][p.index][p.byte]
  }

  lemma LineIsPresent(l: nat, b: nat, g: nat, banks: nat)
    requires b < banks && GlobalLine(l, b, banks) < g
    ensures l < LinesOf(g, b, banks)
  {
    var q, r := g / banks, g % banks;
    assert g == banks * q + r;
    if l > q { AtLeast(banks, l - q); }
    assert banks * (l - q) == banks * l - banks * q;
  }

  /** The banks hold the image: every byte is at the spot of its address. */
  lemma ImageIsInBanks(t: Tables, s: Shape, image: seq<Byte>, lines: nat, a: nat)
    requires s.Valid() && s.banks > 0 && InImage(s, image, lines) && Dealt(t, s, image, lines, lines) && a < s.line * lines
    ensures s.Width() > 0 && IsSpot(s, lines, SpotOf(s, a))
    ensures var p := SpotOf(s, a);
      && p.bank < |t| && p.cell < |t[p.bank]| && p.index < |t[p.bank][p.cell]| && p.byte < |t[p.bank][p.cell][p.index]|
      && Cell(t, p) == image[a]
  {
    AddressOfSpot(s, lines, a);
    SpotHolds(t, s, image, lines, SpotOf(s, a));
    hide SpotOf, AddressOf, Dealt, IsSpot, Cell;
  }

  /** The same in numbers: lines go round the banks, and the words of a line go to the cells in turn. */
  lemma CellHolds(t: Tables, s: Shape, image: seq<Byte>, lines: nat, bank: nat, cell: nat, index: nat, byte: nat)
    requires s.Valid() && InImage(s, image, lines) && Dealt(t, s, image, lines, lines)
    requires bank < s.banks && cell < s.cells && byte < s.line / s.cells && s.banks * index + bank < lines
    ensures bank < |t| && cell < |t[bank]| && index < |t[bank][cell]| && byte < |t[bank][cell][index]|
    ensures
      var a := s.line * (s.banks * index + bank) + (s.line / s.cells) * cell + byte;
      a < |image| && t[bank][cell][index][byte] == image[a]
  {
    SpotHolds(t, s, image, lines, Spot(bank, cell, index, byte));
  }

  lemma SpotHolds(t: Tables, s: Shape, image: seq<Byte>, lines: nat, p: Spot)
    requires s.Valid() && InImage(s, image, lines) && Dealt(t, s, image, lines, lines) && IsSpot(s, lines, p)
    ensures p.bank < |t| && p.cell < |t[p.bank]| && p.index < |t[p.bank][p.cell]| && p.byte < |t[p.bank][p.cell][p.index]|
    ensures AddressOf(s, p) < |image| && Cell(t, p) == image[AddressOf(s, p)]
  {
    hide GlobalLine, LinesOf, Shape.Width;
    LineIsPresent(p.index, p.bank, lines, s.banks);
    var words, g := t[p.bank][p.cell], GlobalLine(p.index, p.bank, s.banks);
    assert CellDealt(words, s, image, lines, lines, p.bank, p.cell);
    assert words[p.index] == WordAt(s, image, lines, g, p.cell);
    WordFits(s, g, p.cell, lines);
    Commute(s.line, g, s.Width(), p.cell);
  }

  lemma Commute(line: nat, g: nat, w: nat, c: nat)
    ensures g * line + c * w == line * g + w * c
  {
  }

  // ---------- hex files ----------

  /** The words of a cell as the numbers of its file; no other widths are supported. */
  method WriteCellHex(words: seq<Word>, width: nat) returns (r: Outcome<seq<nat>>)
    requires forall i :: 0 <= i < |words| ==> |words[i]| == width
    ensures r.Built? <==> width in {1, 2, 4, 8}
    ensures r.Built? ==> |r.value| == |words|
    ensures r.Built? ==> forall i :: 0 <= i < |words| ==> r.value[i] < Power256(width) && ToBytes(r.value[i], width) == words[i]
    ensures r.Built? ==> forall i, k :: 0 <= i < |words| && 0 <= k < width ==> words[i][k] == r.value[i] / Power256(k) % 256
  {
    if width !in {1, 2, 4, 8} { return Failed(UnsupportedWidth); }
    var out: seq<nat> := [];
    for k := 0 to |words|
      invariant |out| == k
      invariant forall i :: 0 <= i < k ==> out[i] < Power256(width) && ToBytes(out[i], width) == words[i]
      invariant forall i, j :: 0 <= i < k && 0 <= j < width ==> words[i][j] == out[i] / Power256(j) % 256
    {
      hide Power256, ToBytes, FromBytes;
      ValueOfBytes(words[k]);
      forall j | 0 <= j < width ensures words[k][j] == FromBytes(words[k]) / Power256(j) % 256 { DigitOfValue(words[k], j); }
      out := out + [FromBytes(words[k])];
    }
    return Built(out);
  }
}
