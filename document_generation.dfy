/**
  Placeholder substitution in a Word document and the names of the files
  produced, as `document_generator.py` does it (the same helpers are copied
  into `generate_and_pdf.py`). A paragraph is a sequence of runs whose
  texts the program rewrites in place; its visible text is their
  concatenation.
 */
module DocumentGeneration {
  import opened Wrappers
  import opened Strings
  import opened Paths
  import opened FileUtils
  import Config

  // ---------------------------------------------------------------------
  // Paragraphs

  /**
    A paragraph of the document: the texts of its runs, and whether the
    library in use offers `Paragraph.clear()`.
   */
  class Paragraph {
    var runs: seq<string>
    const hasClear: bool

    constructor (runs: seq<string>, hasClear: bool)
      ensures this.runs == runs && this.hasClear == hasClear
    {
      this.runs := runs;
      this.hasClear := hasClear;
    }

    /** `paragraph.text`: the texts of the runs, one after the other. */
    function Text(): string
      reads this
    {
      Concat(runs)
    }
  }

  /** The targeted pass on one run: every occurrence replaced, if it holds one. */
  function TargetedRun(t: string, ph: string, r: string): string
    requires |ph| > 0
  {
    if Contains(t, ph) then ReplaceAll(t, ph, r) else t
  }

  /**
    The runs after the targeted pass: nothing changes unless the paragraph's
    text holds the placeholder; then each run is treated on its own.
   */
  function TargetedRuns(runs: seq<string>, ph: string, r: string): seq<string>
    requires |ph| > 0
  {
    if Contains(Concat(runs), ph) then seq(|runs|, k requires 0 <= k < |runs| => TargetedRun(runs[k], ph, r))
    else runs
  }

  /**
    The two-tier result for one paragraph: untouched without the placeholder;
    otherwise the targeted pass, and, if the placeholder survives it, a
    single run holding the whole text with every occurrence replaced.
   */
  function TwoTier(runs: seq<string>, ph: string, r: string): seq<string>
    requires |ph| > 0
  {
    if !Contains(Concat(runs), ph) then runs
    else
      var t := TargetedRuns(runs, ph, r);
      if Contains(Concat(t), ph) then [ReplaceAll(Concat(t), ph, r)] else t
  }

  /** `replace_placeholder_in_paragraph`: the targeted pass, run by run, in place. */
  method ReplacePlaceholderInParagraph(p: Paragraph, ph: string, r: string)
    requires |ph| > 0
    modifies p
    ensures p.runs == TargetedRuns(old(p.runs), ph, r)
  {
    if Contains(p.Text(), ph) {
      var k := 0;
      while k < |p.runs|
        invariant 0 <= k <= |p.runs| == |old(p.runs)|
        invariant forall j :: 0 <= j < k ==> p.runs[j] == TargetedRun(old(p.runs)[j], ph, r)
        invariant forall j :: k <= j < |p.runs| ==> p.runs[j] == old(p.runs)[j]
      {
        if Contains(p.runs[k], ph) {
          p.runs := p.runs[k := ReplaceAll(p.runs[k], ph, r)];
        }
        k := k + 1;
      }
    }
  }

  /**
    `force_replace_across_runs`: when the whole text holds the placeholder,
    empty every run, clear the paragraph and add one run with the replaced
    text, reporting whether it did so.
   */
  method ForceReplaceAcrossRuns(p: Paragraph, ph: string, r: string) returns (replaced: bool)
    requires |ph| > 0
    modifies p
    ensures replaced <==> Contains(old(p.Text()), ph)
    ensures replaced ==> p.runs == [ReplaceAll(old(p.Text()), ph, r)]
    ensures !replaced ==> p.runs == old(p.runs)
  {
    var full := p.Text();
    if !Contains(full, ph) {
      return false;
    }
    var newText := ReplaceAll(full, ph, r);
    var k := |p.runs|;
    while k > 0
      invariant 0 <= k <= |p.runs| == |old(p.runs)|
      invariant forall j :: 0 <= j < k ==> p.runs[j] == old(p.runs)[j]
      invariant forall j :: k <= j < |p.runs| ==> p.runs[j] == ""
    {
      k := k - 1;
      p.runs := p.runs[k := ""];
    }
    if p.hasClear {
      p.runs := [];
    } else {
      RemoveRuns(p);
    }
    p.runs := p.runs + [newText];
    return true;
  }

  /**
    The fallback for a library without `clear()`, as it is evidently meant to
    work: remove the last run until none is left.
   */
  method RemoveRuns(p: Paragraph)
    modifies p
    ensures p.runs == []
  {
    while p.runs != []
      decreases |p.runs|
    {
      p.runs := p.runs[..|p.runs| - 1];
    }
  }

  /**
    The fallback as written: each pass empties the text of the last run and
    removes nothing. These are the runs after `n` passes.
   */
  function LegacyFallback(runs: seq<string>, n: nat): seq<string>
    decreases n
  {
    if n == 0 || runs == [] then runs
    else LegacyFallback(runs[|runs| - 1 := ""], n - 1)
  }

  /**
    After any number of passes the written fallback still has every run, so
    its loop condition never becomes false on a paragraph with runs.
   */
  lemma {:induction false} LegacyFallbackNeverEnds(runs: seq<string>, n: nat)
    requires runs != []
    ensures |LegacyFallback(runs, n)| == |runs|
    ensures LegacyFallback(runs, n) != []
    decreases n
  {
    if n > 0 {
      LegacyFallbackNeverEnds(runs[|runs| - 1 := ""], n - 1);
    }
  }

  /** The body pass of `generate_document` on one paragraph. */
  method ReplaceInBodyParagraph(p: Paragraph, ph: string, r: string)
    requires |ph| > 0
    modifies p
    ensures p.runs == TwoTier(old(p.runs), ph, r)
  {
    if Contains(p.Text(), ph) {
      ReplacePlaceholderInParagraph(p, ph, r);
      if Contains(p.Text(), ph) {
        var _ := ForceReplaceAcrossRuns(p, ph, r);
      }
    }
  }

  /**
    The table pass of `replace_in_tables` on one paragraph: the targeted pass
    returns nothing, so the `or` always goes on to the forced pass, which
    checks the text again itself.
   */
  method ReplaceInCellParagraph(p: Paragraph, ph: string, r: string)
    requires |ph| > 0
    modifies p
    ensures p.runs == TwoTier(old(p.runs), ph, r)
  {
    if Contains(p.Text(), ph) {
      ReplacePlaceholderInParagraph(p, ph, r);
      var _ := ForceReplaceAcrossRuns(p, ph, r);
    }
  }

  // ---------------------------------------------------------------------
  // What the two tiers guarantee

  /** The guard on a run changes nothing: a run is either replaced or has nothing to replace. */
  lemma {:induction false} TargetedRunIsReplace(t: string, ph: string, r: string)
    requires |ph| > 0
    ensures TargetedRun(t, ph, r) == ReplaceAll(t, ph, r)
  {
    if !Contains(t, ph) {
      ReplaceAllAbsent(t, ph, r);
    }
  }

  /**
    The targeted pass keeps the number of runs; a run that does not hold the
    placeholder keeps its text; and with the placeholder in the paragraph,
    each run is replaced in full.
   */
  lemma {:induction false} TargetedRunsShape(runs: seq<string>, ph: string, r: string)
    requires |ph| > 0
    ensures |TargetedRuns(runs, ph, r)| == |runs|
    ensures forall k :: 0 <= k < |runs| && !Contains(runs[k], ph) ==> TargetedRuns(runs, ph, r)[k] == runs[k]
    ensures Contains(Concat(runs), ph) ==>
      forall k :: 0 <= k < |runs| ==> TargetedRuns(runs, ph, r)[k] == ReplaceAll(runs[k], ph, r)
  {
    if Contains(Concat(runs), ph) {
      forall k | 0 <= k < |runs| ensures TargetedRuns(runs, ph, r)[k] == ReplaceAll(runs[k], ph, r) {
        TargetedRunIsReplace(runs[k], ph, r);
      }
    }
  }

  /**
    When the replacement is non-empty and shares no character with the
    placeholder, no run holds the placeholder after the targeted pass if the
    paragraph's text held it.
   */
  lemma {:induction false} TargetedRunsClearRuns(runs: seq<string>, ph: string, r: string)
    requires |ph| > 0 && |r| > 0
    requires forall c :: c in r ==> c !in ph
    requires Contains(Concat(runs), ph)
    ensures forall k :: 0 <= k < |runs| ==> !Contains(TargetedRuns(runs, ph, r)[k], ph)
  {
    TargetedRunsShape(runs, ph, r);
    forall k | 0 <= k < |runs| ensures !Contains(TargetedRuns(runs, ph, r)[k], ph) {
      ReplaceAllRemoves(runs[k], ph, r);
    }
  }

  /** The program's placeholder opens with `{{` and holds no other `{`. */
  lemma {:induction false} PlaceholderOpened()
    ensures PairOpened(Config.Placeholder, '{')
  {
  }

  /**
    No residue: for a placeholder opened by a doubled character `c` (as
    `{{VENDEUR}}` is by `{`), a name without `c` and a paragraph whose every
    `c` opens a placeholder, the two tiers leave no placeholder in the text.
   */
  lemma {:induction false} TwoTierNoResidual(runs: seq<string>, ph: string, c: char, r: string)
    requires PairOpened(ph, c) && c !in r
    requires Covered(Concat(runs), ph, c)
    ensures !Contains(Concat(TwoTier(runs, ph, r)), ph)
  {
    if Contains(Concat(runs), ph) {
      var t := TargetedRuns(runs, ph, r);
      TargetedRunsShape(runs, ph, r);
      assert t == seq(|runs|, k requires 0 <= k < |runs| => ReplaceAll(runs[k], ph, r));
      assert "" + Concat(runs) == Concat(runs);
      CoveredReplaceEach("", runs, ph, c, r);
      assert "" + Concat(t) == Concat(t);
      if Contains(Concat(t), ph) {
        var whole := ReplaceAll(Concat(t), ph, r);
        ReplaceAllClearsCovered(Concat(t), ph, c, r);
        PairOpenerAbsent(whole, ph, c);
        assert Concat([whole]) == whole by {
          assert [whole][1..] == [];
        }
      }
    }
  }

  /**
    A placeholder that lies across runs and inside none of them is left to
    the second tier: the paragraph becomes one run, the whole text replaced.
   */
  lemma {:induction false} TwoTierStraddling(runs: seq<string>, ph: string, r: string)
    requires |ph| > 0
    requires forall k :: 0 <= k < |runs| ==> !Contains(runs[k], ph)
    requires Contains(Concat(runs), ph)
    ensures TwoTier(runs, ph, r) == [ReplaceAll(Concat(runs), ph, r)]
  {
    var t := TargetedRuns(runs, ph, r);
    TargetedRunsShape(runs, ph, r);
    assert t == runs;
  }

  /** No placeholder occurrence lies across a boundary between two runs. */
  predicate Aligned(runs: seq<string>, ph: string) {
    forall k :: 0 <= k < |runs| ==> NoStraddle(runs[k], Concat(runs[k + 1..]), ph)
  }

  /** On runs whose occurrences each lie inside one run, the targeted pass is the whole-text replacement. */
  lemma {:induction false} AlignedTargetedText(runs: seq<string>, ph: string, r: string)
    requires |ph| > 0 && Aligned(runs, ph)
    ensures Concat(seq(|runs|, k requires 0 <= k < |runs| => ReplaceAll(runs[k], ph, r)))
      == ReplaceAll(Concat(runs), ph, r)
    decreases |runs|
  {
    var rs := seq(|runs|, k requires 0 <= k < |runs| => ReplaceAll(runs[k], ph, r));
    if runs == [] {
      ReplaceAllAbsent("", ph, r);
    } else {
      var tail := runs[1..];
      assert Aligned(tail, ph) by {
        forall k | 0 <= k < |tail| ensures NoStraddle(tail[k], Concat(tail[k + 1..]), ph) {
          assert tail[k] == runs[k + 1] && tail[k + 1..] == runs[k + 2..];
        }
      }
      AlignedTargetedText(tail, ph, r);
      assert NoStraddle(runs[0], Concat(runs[1..]), ph);
      ReplaceAllConcat(runs[0], Concat(tail), ph, r);
      assert rs[1..] == seq(|tail|, k requires 0 <= k < |tail| => ReplaceAll(tail[k], ph, r));
    }
  }

  /**
    When every occurrence lies inside one run and the name cannot rebuild
    the placeholder (the conditions of `TwoTierNoResidual`), the first tier
    suffices: the runs keep their number (and so their formatting), and the
    text is the whole-text replacement.
   */
  lemma {:induction false} TwoTierAligned(runs: seq<string>, ph: string, c: char, r: string)
    requires PairOpened(ph, c) && c !in r
    requires Covered(Concat(runs), ph, c)
    requires Aligned(runs, ph) && Contains(Concat(runs), ph)
    ensures TwoTier(runs, ph, r) == TargetedRuns(runs, ph, r)
    ensures |TwoTier(runs, ph, r)| == |runs|
    ensures Concat(TwoTier(runs, ph, r)) == ReplaceAll(Concat(runs), ph, r)
  {
    var t := TargetedRuns(runs, ph, r);
    TargetedRunsShape(runs, ph, r);
    assert t == seq(|runs|, k requires 0 <= k < |runs| => ReplaceAll(runs[k], ph, r));
    AlignedTargetedText(runs, ph, r);
    ReplaceAllClearsCovered(Concat(runs), ph, c, r);
    PairOpenerAbsent(ReplaceAll(Concat(runs), ph, r), ph, c);
  }

  /** The first occurrence being the only one, `str.replace` swaps exactly it. */
  lemma {:induction false} ReplaceAllOnce(a: string, ph: string, b: string, r: string)
    requires |ph| > 0 && ph[0] !in a && ph[0] !in b
    ensures ReplaceAll(a + ph + b, ph, r) == a + r + b
  {
    var s := a + ph + b;
    forall j | 0 <= j < |a| ensures !OccursAt(s, ph, j) {
      assert s[j] == a[j] && a[j] in a;
      assert j + |ph| <= |s| ==> s[j..j + |ph|][0] == s[j];
    }
    assert s[|a|..|a| + |ph|] == ph;
    FindIsLeftmost(s, ph, |a|);
    ReplaceAllSplit(s, ph, r, a, b);
    forall j | 0 <= j <= |b| ensures !OccursAt(b, ph, j) {
      assert j < |b| ==> b[j] in b;
      assert j + |ph| <= |b| ==> b[j..j + |ph|][0] == b[j];
    }
    ReplaceAllAbsent(b, ph, r);
  }

  /**
    One run holding the placeholder once (the test's `"Hello {{VENDEUR}}"`
    with `"John Doe"`): the run is rewritten in place.
   */
  lemma {:induction false} TargetedSingleRun(a: string, ph: string, b: string, r: string)
    requires |ph| > 0 && ph[0] !in a && ph[0] !in b
    ensures TargetedRuns([a + ph + b], ph, r) == [a + r + b]
  {
    var s := a + ph + b;
    var one: seq<string> := [s];
    assert Concat(one) == s by { assert one[1..] == []; }
    assert OccursAt(s, ph, |a|) by { assert s[|a|..|a| + |ph|] == ph; }
    ReplaceAllOnce(a, ph, b, r);
  }

  /**
    The placeholder at the end of one run and more text in the next (the
    test's `"Hello {{VENDEUR}}"` and `" world"`): the forced pass leaves the
    single run `a + r + b`.
   */
  lemma {:induction false} ForcedTwoRuns(a: string, ph: string, b: string, r: string)
    requires |ph| > 0 && ph[0] !in a && ph[0] !in b
    ensures Concat([a + ph, b]) == a + ph + b
    ensures ReplaceAll(Concat([a + ph, b]), ph, r) == a + r + b
  {
    var runs := [a + ph, b];
    var last: seq<string> := [b];
    assert runs[1..] == last && last[1..] == [];
    assert Concat(last) == b;
    assert Concat(runs) == a + ph + b;
    ReplaceAllOnce(a, ph, b, r);
  }

  // ---------------------------------------------------------------------
  // Documents: body paragraphs and tables of rows of cells of paragraphs

  datatype Cell = Cell(paragraphs: seq<Paragraph>)
  datatype Row = Row(cells: seq<Cell>)
  datatype Table = Table(rows: seq<Row>)
  datatype Document = Document(paragraphs: seq<Paragraph>, tables: seq<Table>)

  /** The paragraphs reachable from the items of `xs`, given those of each item. */
  function UnionOf<T>(xs: seq<T>, f: T -> set<Paragraph>): (u: set<Paragraph>)
    decreases |xs|
  {
    if xs == [] then {} else UnionOf(xs[..|xs| - 1], f) + f(xs[|xs| - 1])
  }

  /** No paragraph is reachable from two different items of `xs`. */
  predicate Disjoint<T>(xs: seq<T>, f: T -> set<Paragraph>) {
    forall i, j :: 0 <= i < j < |xs| ==> f(xs[i]) !! f(xs[j])
  }

  /** The paragraphs of a sequence, as a set. */
  function ParasOf(ps: seq<Paragraph>): set<Paragraph> { set p | p in ps }
  function CellParas(c: Cell): set<Paragraph> { ParasOf(c.paragraphs) }
  function RowParas(r: Row): set<Paragraph> { UnionOf(r.cells, CellParas) }
  function TableParas(t: Table): set<Paragraph> { UnionOf(t.rows, RowParas) }
  function TablesParas(ts: seq<Table>): set<Paragraph> { UnionOf(ts, TableParas) }

  /** No paragraph object occurs twice in `ps`. */
  predicate Distinct(ps: seq<Paragraph>) {
    forall i, j :: 0 <= i < j < |ps| ==> ps[i] != ps[j]
  }

  /** Each paragraph of a cell is a distinct object. */
  predicate CellOk(c: Cell) { Distinct(c.paragraphs) }
  predicate RowOk(r: Row) { Disjoint(r.cells, CellParas) && forall k :: 0 <= k < |r.cells| ==> CellOk(r.cells[k]) }
  predicate TableOk(t: Table) { Disjoint(t.rows, RowParas) && forall k :: 0 <= k < |t.rows| ==> RowOk(t.rows[k]) }
  predicate TablesOk(ts: seq<Table>) { Disjoint(ts, TableParas) && forall k :: 0 <= k < |ts| ==> TableOk(ts[k]) }

  /** Body and table paragraphs are distinct objects, each reached once. */
  predicate DocumentOk(d: Document) {
    Distinct(d.paragraphs) && TablesOk(d.tables)
    && ParasOf(d.paragraphs) !! TablesParas(d.tables)
  }

  /** The paragraphs of the first `i + 1` items are those of the first `i`, and those of item `i`, which are new. */
  lemma {:induction false} UnionStep<T>(xs: seq<T>, f: T -> set<Paragraph>, i: nat)
    requires i < |xs| && Disjoint(xs, f)
    ensures UnionOf(xs[..i + 1], f) == UnionOf(xs[..i], f) + f(xs[i])
    ensures f(xs[i]) !! UnionOf(xs[..i], f)
    ensures UnionOf(xs[..i + 1], f) <= UnionOf(xs, f)
  {
    assert xs[..i + 1][..i] == xs[..i];
    UnionBefore(xs, f, i, i);
    UnionPrefix(xs, f, i + 1);
  }

  /** The paragraphs of a prefix are among those of the whole. */
  lemma {:induction false} UnionPrefix<T>(xs: seq<T>, f: T -> set<Paragraph>, n: nat)
    requires n <= |xs|
    ensures UnionOf(xs[..n], f) <= UnionOf(xs, f)
    decreases |xs| - n
  {
    if n < |xs| {
      UnionPrefix(xs, f, n + 1);
      assert xs[..n + 1][..n] == xs[..n];
    } else {
      assert xs[..n] == xs;
    }
  }

  /** Item `i` shares no paragraph with the items before position `n <= i`. */
  lemma {:induction false} UnionBefore<T>(xs: seq<T>, f: T -> set<Paragraph>, i: nat, n: nat)
    requires n <= i < |xs| && Disjoint(xs, f)
    ensures f(xs[i]) !! UnionOf(xs[..n], f)
    decreases n
  {
    if n > 0 {
      assert xs[..n][..n - 1] == xs[..n - 1];
      UnionBefore(xs, f, i, n - 1);
      assert f(xs[n - 1]) !! f(xs[i]);
    }
  }

  /** `replace_in_tables`, innermost loop: every paragraph of one cell. */
  method ReplaceInCell(c: Cell, ph: string, r: string)
    requires |ph| > 0 && CellOk(c)
    modifies CellParas(c)
    ensures forall p :: p in CellParas(c) ==> p.runs == TwoTier(old(p.runs), ph, r)
  {
    var ps := c.paragraphs;
    var i := 0;
    while i < |ps|
      invariant 0 <= i <= |ps|
      invariant forall k :: 0 <= k < i ==> ps[k].runs == TwoTier(old(ps[k].runs), ph, r)
      invariant forall k :: i <= k < |ps| ==> ps[k].runs == old(ps[k].runs)
    {
      ReplaceInCellParagraph(ps[i], ph, r);
      i := i + 1;
    }
  }

  /** `replace_in_tables`: every cell of one row. */
  method ReplaceInRow(row: Row, ph: string, r: string)
    requires |ph| > 0 && RowOk(row)
    modifies RowParas(row)
    ensures forall p :: p in RowParas(row) && old(allocated(p)) ==> p.runs == TwoTier(old(p.runs), ph, r)
  {
    var xs := row.cells;
    var i := 0;
    while i < |xs|
      invariant 0 <= i <= |xs|
      invariant forall p :: p in UnionOf(xs[..i], CellParas) && old(allocated(p)) ==> p.runs == TwoTier(old(p.runs), ph, r)
      invariant forall p :: p in RowParas(row) && p !in UnionOf(xs[..i], CellParas) && old(allocated(p)) ==> p.runs == old(p.runs)
    {
      UnionStep(xs, CellParas, i);
      ReplaceInCell(xs[i], ph, r);
      i := i + 1;
    }
    assert xs[..i] == xs;
  }

  /** `replace_in_tables`: every row of one table. */
  method ReplaceInTable(t: Table, ph: string, r: string)
    requires |ph| > 0 && TableOk(t)
    modifies TableParas(t)
    ensures forall p :: p in TableParas(t) && old(allocated(p)) ==> p.runs == TwoTier(old(p.runs), ph, r)
  {
    var xs := t.rows;
    var i := 0;
    while i < |xs|
      invariant 0 <= i <= |xs|
      invariant forall p :: p in UnionOf(xs[..i], RowParas) && old(allocated(p)) ==> p.runs == TwoTier(old(p.runs), ph, r)
      invariant forall p :: p in TableParas(t) && p !in UnionOf(xs[..i], RowParas) && old(allocated(p)) ==> p.runs == old(p.runs)
    {
      UnionStep(xs, RowParas, i);
      ReplaceInRow(xs[i], ph, r);
      i := i + 1;
    }
    assert xs[..i] == xs;
  }

  /** `replace_in_tables(doc, placeholder, replacement)`: every paragraph of every table gets the two-tier result. */
  method ReplaceInTables(ts: seq<Table>, ph: string, r: string)
    requires |ph| > 0 && TablesOk(ts)
    modifies TablesParas(ts)
    ensures forall p :: p in TablesParas(ts) && old(allocated(p)) ==> p.runs == TwoTier(old(p.runs), ph, r)
  {
    var i := 0;
    while i < |ts|
      invariant 0 <= i <= |ts|
      invariant forall p :: p in UnionOf(ts[..i], TableParas) && old(allocated(p)) ==> p.runs == TwoTier(old(p.runs), ph, r)
      invariant forall p :: p in TablesParas(ts) && p !in UnionOf(ts[..i], TableParas) && old(allocated(p)) ==> p.runs == old(p.runs)
    {
      UnionStep(ts, TableParas, i);
      ReplaceInTable(ts[i], ph, r);
      i := i + 1;
    }
    assert ts[..i] == ts;
  }

  /** The loop over the body paragraphs in `generate_document`. */
  method ReplaceInBody(ps: seq<Paragraph>, ph: string, r: string)
    requires |ph| > 0 && Distinct(ps)
    modifies ParasOf(ps)
    ensures forall k :: 0 <= k < |ps| ==> ps[k].runs == TwoTier(old(ps[k].runs), ph, r)
  {
    var i := 0;
    while i < |ps|
      invariant 0 <= i <= |ps|
      invariant forall k :: 0 <= k < i ==> ps[k].runs == TwoTier(old(ps[k].runs), ph, r)
      invariant forall k :: i <= k < |ps| ==> ps[k].runs == old(ps[k].runs)
    {
      ReplaceInBodyParagraph(ps[i], ph, r);
      i := i + 1;
    }
  }

  // ---------------------------------------------------------------------
  // Output file names

  /** `f"{index:02d}_{safe_filename(name)}"`: the stem of the Word file for one record. */
  function DocxStem(index: int, name: string): string {
    ZeroPad2(index) + "_" + SafeFilename(name)
  }

  /** The name of the Word file written for the record `name` at position `index`. */
  function DocxName(index: int, name: string): string {
    DocxStem(index, name) + ".docx"
  }

  /** The part `convert_to_pdf` inserts between the stem and `.pdf`: empty unless an email is given. */
  function EmailPart(email: string): string {
    if email != "" then "_" + SafeEmailForFilename(Some(email)) else ""
  }

  /** `docx_path.stem + email_suffix + ".pdf"`. */
  function PdfName(docxName: string, email: string): string {
    Stem(docxName) + EmailPart(email) + ".pdf"
  }

  /** The Word file name splits, as `pathlib` sees it, into the padded index and cleaned name, and `.docx`. */
  lemma {:induction false} DocxNameSplits(index: int, name: string)
    ensures Stem(DocxName(index, name)) == DocxStem(index, name)
    ensures Suffix(DocxName(index, name)) == ".docx"
  {
    var st := DocxStem(index, name);
    var ext := "docx";
    assert |st| >= 2;
    assert '.' !in ext by {
      assert ext == ['d', 'o', 'c', 'x'];
    }
    SplitsAtExtension(st, ext);
    assert DocxName(index, name) == st + "." + ext;
  }

  /** For a non-negative index, the text before the first `_` is the index written in decimal. */
  lemma {:induction false} DocxNameIndex(index: int, name: string)
    requires index >= 0
    ensures Find(DocxName(index, name), "_") == Some(|ZeroPad2(index)|)
    ensures |ZeroPad2(index)| <= |DocxName(index, name)|
    ensures DocxName(index, name)[..|ZeroPad2(index)|] == ZeroPad2(index)
  {
    var z := ZeroPad2(index);
    var n := DocxName(index, name);
    assert n == z + ("_" + SafeFilename(name) + ".docx");
    assert n[|z|] == '_';
    assert OccursAt(n, "_", |z|);
    forall j | 0 <= j < |z| ensures !OccursAt(n, "_", j) {
      assert n[j] == z[j];
      assert IsDigit(z[j]);
    }
    FindIsLeftmost(n, "_", |z|);
  }

  /** Records at different non-negative positions never share a Word file name. */
  lemma {:induction false} DocxNamesDistinct(i: int, a: string, j: int, b: string)
    requires i >= 0 && j >= 0 && i != j
    ensures DocxName(i, a) != DocxName(j, b)
  {
    DocxNameIndex(i, a);
    DocxNameIndex(j, b);
  }

  /** The PDF file keeps the Word file's stem, followed by the email part, and ends in `.pdf`. */
  lemma {:induction false} PdfNameSplits(docxName: string, email: string)
    requires Stem(docxName) + EmailPart(email) != []
    ensures Stem(PdfName(docxName, email)) == Stem(docxName) + EmailPart(email)
    ensures Suffix(PdfName(docxName, email)) == ".pdf"
  {
    var st := Stem(docxName) + EmailPart(email);
    SplitsAtExtension(st, "pdf");
    assert PdfName(docxName, email) == st + "." + "pdf";
  }

  /** The PDF file of a generated record: its Word stem, the email part, `.pdf`. */
  lemma {:induction false} PdfNameOfDocx(index: int, name: string, email: string)
    ensures PdfName(DocxName(index, name), email) == DocxStem(index, name) + EmailPart(email) + ".pdf"
    ensures email == "" ==> PdfName(DocxName(index, name), email) == DocxStem(index, name) + ".pdf"
  {
    DocxNameSplits(index, name);
  }

  /** `convert_to_pdf(docx_path, email)`: where the PDF of a Word file is written. */
  function PdfPath(docx: Path, email: string, pdfDir: string): Path {
    Path(pdfDir, PdfName(docx.name, email))
  }

  /** A Word file the batch writes: record `name` under number `index` in `dir`. */
  datatype WordFile = WordFile(dir: string, index: int, name: string)

  /** The PDF file converted from `source`, for the recipient `email`, in `dir`. */
  datatype PdfFile = PdfFile(dir: string, source: WordFile, email: string)

  /** Where a Word file of the batch is saved. */
  function WordPath(w: WordFile): (p: Path)
    ensures p.dir == w.dir && Stem(p.name) == DocxStem(w.index, w.name) && Suffix(p.name) == ".docx"
  {
    DocxNameSplits(w.index, w.name);
    Path(w.dir, DocxName(w.index, w.name))
  }

  /** Where a PDF file of the batch is written: `convert_to_pdf` applied to the path of its Word file. */
  function PdfFilePath(f: PdfFile): (p: Path)
    ensures p == PdfPath(WordPath(f.source), f.email, f.dir)
    ensures p.name == DocxStem(f.source.index, f.source.name) + EmailPart(f.email) + ".pdf"
  {
    PdfNameOfDocx(f.source.index, f.source.name, f.email);
    PdfPath(WordPath(f.source), f.email, f.dir)
  }

  /** The PDF files of a generation that converted every record. */
  function AllPdfs(rows: seq<Record>, docxDir: string, pdfDir: string): (pdf: seq<PdfFile>)
    ensures |pdf| == |rows|
    ensures forall i :: 0 <= i < |rows| ==> pdf[i] == PdfFile(pdfDir, WordFile(docxDir, i + 1, rows[i].name), rows[i].email)
  {
    seq(|rows|, (i: int) requires 0 <= i < |rows| => PdfFile(pdfDir, WordFile(docxDir, i + 1, rows[i].name), rows[i].email))
  }

  /** The paths of a list of PDF files, in the same order. */
  function PdfPaths(pdf: seq<PdfFile>): (paths: seq<Path>)
    ensures |paths| == |pdf|
    ensures forall i :: 0 <= i < |pdf| ==> paths[i] == PdfFilePath(pdf[i])
  {
    seq(|pdf|, (i: int) requires 0 <= i < |pdf| => PdfFilePath(pdf[i]))
  }

  // ---------------------------------------------------------------------
  // The generator

  /** Which step of a record's processing raises, if any. */
  datatype Stage = Generation | Conversion

  /** What `generate_documents_batch` does: return both lists, or re-raise the first failure. */
  datatype BatchOutcome =
    | Completed(docx: seq<WordFile>, pdf: seq<PdfFile>)
    | Raised(row: nat, stage: Stage)

  /** `DocumentGenerator`: a generator bound to the path of its template. */
  class DocumentGenerator {
    const templatePath: Path

    constructor (templatePath: Path)
      ensures this.templatePath == templatePath
    {
      this.templatePath := templatePath;
    }

    /**
      `DocumentGenerator(template_path)`: refuses, with the message of the
      `FileNotFoundError`, a template that does not exist.
     */
    static method Open(templatePath: Path, existing: set<Path>) returns (r: Result<DocumentGenerator>)
      ensures r.Err? <==> templatePath !in existing
      ensures r.Err? ==> r.error == "Modèle introuvable: " + PathText(templatePath)
      ensures r.Ok? ==> fresh(r.value) && r.value.templatePath == templatePath
    {
      if templatePath !in existing {
        return Err("Modèle introuvable: " + PathText(templatePath));
      }
      var g := new DocumentGenerator(templatePath);
      return Ok(g);
    }

    /**
      `generate_document(name, index)` on `doc`, the document just loaded
      from the template: every body and table paragraph gets the two-tier
      replacement of the placeholder by `name`, and the result is saved
      under the numbered name in `outDir`.
     */
    method GenerateDocument(doc: Document, name: string, index: int, outDir: string) returns (out: Path)
      requires DocumentOk(doc)
      modifies ParasOf(doc.paragraphs), TablesParas(doc.tables)
      ensures out == Path(outDir, DocxName(index, name))
      ensures forall k :: 0 <= k < |doc.paragraphs| ==>
        doc.paragraphs[k].runs == TwoTier(old(doc.paragraphs[k].runs), Config.Placeholder, name)
      ensures forall p :: p in TablesParas(doc.tables) && old(allocated(p)) ==>
        p.runs == TwoTier(old(p.runs), Config.Placeholder, name)
    {
      ReplaceInBody(doc.paragraphs, Config.Placeholder, name);
      label body:
      ReplaceInTables(doc.tables, Config.Placeholder, name);
      assert forall k :: 0 <= k < |doc.paragraphs| ==> doc.paragraphs[k] !in TablesParas(doc.tables) by {
        forall k | 0 <= k < |doc.paragraphs| ensures doc.paragraphs[k] !in TablesParas(doc.tables) {
          assert doc.paragraphs[k] in ParasOf(doc.paragraphs);
        }
      }
      out := Path(outDir, DocxName(index, name));
    }

    /**
      `generate_documents_batch(rows)`: documents and PDFs for every record,
      with 1-based indices; `fault(i)` says which step of record `i` raises,
      and the first such failure aborts the batch.
     */
    method GenerateDocumentsBatch(rows: seq<Record>, docxDir: string, pdfDir: string, fault: nat -> Option<Stage>)
      returns (out: BatchOutcome)
      ensures out.Completed? <==> forall i :: 0 <= i < |rows| ==> fault(i).None?
      ensures out.Completed? ==> |out.docx| == |rows| && |out.pdf| == |rows|
      ensures out.Completed? ==> forall i :: 0 <= i < |rows| ==>
        out.docx[i] == WordFile(docxDir, i + 1, rows[i].name)
        && out.pdf[i] == PdfFile(pdfDir, out.docx[i], rows[i].email)
      ensures out.Raised? ==> out.row < |rows| && fault(out.row) == Some(out.stage)
      ensures out.Raised? ==> forall i :: 0 <= i < out.row ==> fault(i).None?
    {
      var docx: seq<WordFile> := [];
      var pdf: seq<PdfFile> := [];
      var i := 0;
      while i < |rows|
        invariant 0 <= i <= |rows|
        invariant |docx| == i && |pdf| == i
        invariant forall k :: 0 <= k < i ==> fault(k).None?
        invariant forall k :: 0 <= k < i ==>
          docx[k] == WordFile(docxDir, k + 1, rows[k].name) && pdf[k] == PdfFile(pdfDir, docx[k], rows[k].email)
      {
        var f := fault(i);
        if f == Some(Generation) {
          return Raised(i, Generation);
        }
        var d := WordFile(docxDir, i + 1, rows[i].name);
        docx := docx + [d];
        if f.Some? {
          return Raised(i, f.value);
        }
        pdf := pdf + [PdfFile(pdfDir, d, rows[i].email)];
        i := i + 1;
      }
      return Completed(docx, pdf);
    }
  }
}
