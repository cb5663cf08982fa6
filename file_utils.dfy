/**
  File-name sanitisers and the CSV row filter of `file_utils.py`
  (the same code is copied into `generate_and_pdf.py`).
 */
module FileUtils {
  import opened Wrappers
  import opened Strings
  import opened Paths

  // ---------------------------------------------------------------------
  // `safe_filename`

  /** The characters `safe_filename` keeps before stripping. */
  predicate FilenameChar(c: char) {
    IsAlnum(c) || c == ' ' || c == '-' || c == '_'
  }

  /** The characters a sanitised file name is made of. */
  predicate SafeChar(c: char) {
    IsAlnum(c) || c == '-' || c == '_'
  }

  /**
    `safe_filename(name)`: keep letters, digits, spaces, `-` and `_`,
    strip the ends, then turn every remaining space into `_`.
   */
  function SafeFilename(name: string): (t: string)
    ensures |t| <= |name|
    ensures forall k :: 0 <= k < |t| ==> SafeChar(t[k])
  {
    var kept := FilterChars(name, FilenameChar);
    var stripped := Strip(kept);
    StripKeeps(kept, FilenameChar);
    ReplaceCharIsMap(stripped, ' ', '_');
    ReplaceAll(stripped, " ", "_")
  }

  /** A string of safe characters is not changed by any step of `safe_filename`. */
  lemma {:induction false} SafeFilenameOfSafe(s: string)
    requires forall k :: 0 <= k < |s| ==> SafeChar(s[k])
    ensures SafeFilename(s) == s
  {
    FilterKeepsSafe(s);
    assert s != [] ==> !IsSpace(s[0]) && !IsSpace(s[|s| - 1]) by {
      if s != [] {
        assert SafeChar(s[0]) && SafeChar(s[|s| - 1]);
      }
    }
    StripUnpadded(s);
    ReplaceKeepsSafe(s);
  }

  lemma {:induction false} FilterKeepsSafe(s: string)
    requires forall k :: 0 <= k < |s| ==> SafeChar(s[k])
    ensures FilterChars(s, FilenameChar) == s
  {
    assert forall k :: 0 <= k < |s| ==> FilenameChar(s[k]);
  }

  lemma {:induction false} ReplaceKeepsSafe(s: string)
    requires forall k :: 0 <= k < |s| ==> SafeChar(s[k])
    ensures ReplaceAll(s, " ", "_") == s
  {
    ReplaceCharIsMap(s, ' ', '_');
    var t := ReplaceAll(s, " ", "_");
    assert forall k :: 0 <= k < |s| ==> s[k] != ' ';
    assert |t| == |s| && forall k :: 0 <= k < |s| ==> t[k] == s[k];
  }

  /** Sanitising twice is sanitising once. */
  lemma {:induction false} SafeFilenameIdempotent(name: string)
    ensures SafeFilename(SafeFilename(name)) == SafeFilename(name)
  {
    SafeFilenameOfSafe(SafeFilename(name));
  }

  /** A safe file name holds no space and no dot. */
  lemma {:induction false} SafeFilenameHasNoSpaceOrDot(name: string)
    ensures ' ' !in SafeFilename(name) && '.' !in SafeFilename(name)
  {
    var t := SafeFilename(name);
    forall k | 0 <= k < |t| ensures t[k] != ' ' && t[k] != '.' {
      assert SafeChar(t[k]);
    }
  }

  /** Two safe words separated by one space are joined by `_`. */
  lemma {:induction false} SafeFilenameTwoWords(a: string, b: string)
    requires a != [] && b != []
    requires forall k :: 0 <= k < |a| ==> SafeChar(a[k])
    requires forall k :: 0 <= k < |b| ==> SafeChar(b[k])
    ensures SafeFilename(a + " " + b) == a + "_" + b
  {
    var s := a + " " + b;
    assert forall k :: 0 <= k < |s| ==> FilenameChar(s[k]) by {
      forall k | 0 <= k < |s| ensures FilenameChar(s[k]) {
        if k < |a| { assert s[k] == a[k]; }
        else if k > |a| { assert s[k] == b[k - |a| - 1]; }
      }
    }
    assert s[0] == a[0] && s[|s| - 1] == b[|b| - 1];
    StripUnpadded(s);
    NoSpaceInSafe(a);
    forall j | 0 <= j < |a| ensures !OccursAt(s, " ", j) {
      assert s[j..j + 1] == [a[j]];
    }
    assert OccursAt(s, " ", |a|);
    FindIsLeftmost(s, " ", |a|);
    ReplaceAllSplit(s, " ", "_", a, b);
    ReplaceKeepsSafe(b);
  }

  lemma {:induction false} NoSpaceInSafe(s: string)
    requires forall k :: 0 <= k < |s| ==> SafeChar(s[k])
    ensures forall k :: 0 <= k < |s| ==> s[k] != ' '
  {
  }

  /** Whitespace around the name does not reach the file name. */
  lemma {:induction false} SafeFilenameIgnoresPadding(name: string)
    ensures SafeFilename(" " + name) == SafeFilename(name)
    ensures SafeFilename(name + " ") == SafeFilename(name)
  {
    var kept := FilterChars(name, FilenameChar);
    FilterCharsConcat(" ", name, FilenameChar);
    FilterCharsConcat(name, " ", FilenameChar);
    assert FilterChars(" ", FilenameChar) == " ";
    StripPadFront(kept);
    StripPadBack(kept);
  }

  // ---------------------------------------------------------------------
  // `safe_email_for_filename`

  /** The characters a sanitised e-mail address is made of. */
  predicate EmailChar(c: char) {
    IsAlnum(c) || c == '-' || c == '_' || c == '.'
  }

  /** `safe_email_for_filename` on a string: `@` spelt out, then filtered. */
  function SafeEmailText(e: string): (t: string)
    ensures forall k :: 0 <= k < |t| ==> EmailChar(t[k])
  {
    FilterChars(ReplaceAll(e, "@", "_at_"), EmailChar)
  }

  /** `safe_email_for_filename(email)`, where `None` and `""` both mean no address. */
  function SafeEmailForFilename(email: Option<string>): (t: string)
    ensures email.None? ==> t == ""
    ensures forall k :: 0 <= k < |t| ==> EmailChar(t[k]) && t[k] != '@'
  {
    SafeEmailText(email.GetOr(""))
  }

  lemma {:induction false} SafeEmailOfEmpty()
    ensures SafeEmailForFilename(Some("")) == ""
  {
    ReplaceAllAbsent("", "@", "_at_");
  }

  /** Without an `@` the address is only filtered. */
  lemma {:induction false} SafeEmailWithoutAt(e: string)
    requires '@' !in e
    ensures SafeEmailText(e) == FilterChars(e, EmailChar)
  {
    forall i | 0 <= i <= |e| ensures !OccursAt(e, "@", i) {
      if i < |e| {
        assert e[i] in e;
      }
    }
    ReplaceAllAbsent(e, "@", "_at_");
  }

  /** The first `@` becomes `_at_`, and the rest is sanitised the same way. */
  lemma {:induction false} SafeEmailAtFirstAt(a: string, b: string)
    requires '@' !in a
    ensures SafeEmailText(a + "@" + b) == FilterChars(a, EmailChar) + "_at_" + SafeEmailText(b)
  {
    var s := a + "@" + b;
    forall j | 0 <= j < |a| ensures !OccursAt(s, "@", j) {
      assert s[j] == a[j] && a[j] in a;
    }
    assert s[|a|..|a| + 1] == "@";
    FindIsLeftmost(s, "@", |a|);
    ReplaceAllSplit(s, "@", "_at_", a, b);
    var rb := ReplaceAll(b, "@", "_at_");
    FilterCharsConcat(a + "_at_", rb, EmailChar);
    FilterCharsConcat(a, "_at_", EmailChar);
    assert FilterChars("_at_", EmailChar) == "_at_";
  }

  /** An address made of safe characters around one `@` only has the `@` spelt out. */
  lemma {:induction false} SafeEmailPlainAddress(local: string, domain: string)
    requires forall k :: 0 <= k < |local| ==> EmailChar(local[k])
    requires forall k :: 0 <= k < |domain| ==> EmailChar(domain[k])
    ensures SafeEmailForFilename(Some(local + "@" + domain)) == local + "_at_" + domain
  {
    assert '@' !in local by {
      forall k | 0 <= k < |local| ensures local[k] != '@' { assert EmailChar(local[k]); }
    }
    assert '@' !in domain by {
      forall k | 0 <= k < |domain| ensures domain[k] != '@' { assert EmailChar(domain[k]); }
    }
    SafeEmailAtFirstAt(local, domain);
    SafeEmailWithoutAt(domain);
  }

  // ---------------------------------------------------------------------
  // The row filter of `read_csv_rows`

  /**
    One row as `csv.DictReader` yields it: a column can be missing from the
    header or missing from a short line, which the program reads as `None`.
   */
  datatype RawRow = RawRow(nom: Option<string>, email: Option<string>)

  /** A kept row: the trimmed name and the trimmed address (`""` when absent). */
  datatype Record = Record(name: string, email: string)

  /** `(row.get(column) or "").strip()`. */
  function CellText(v: Option<string>): string {
    Strip(v.GetOr(""))
  }

  /** The record a raw row contributes: none when its trimmed name is empty. */
  function CleanRow(row: RawRow): seq<Record> {
    var name := CellText(row.nom);
    if name != "" then [Record(name, CellText(row.email))] else []
  }

  /** The records kept from `rows`, in reading order. */
  function CleanRows(rows: seq<RawRow>): (out: seq<Record>)
    ensures |out| <= |rows|
    decreases |rows|
  {
    if rows == [] then [] else CleanRows(rows[..|rows| - 1]) + CleanRow(rows[|rows| - 1])
  }

  /** One more row read adds that row's records at the end. */
  lemma {:induction false} CleanRowsSnoc(rows: seq<RawRow>, i: nat)
    requires i < |rows|
    ensures CleanRows(rows[..i + 1]) == CleanRows(rows[..i]) + CleanRow(rows[i])
  {
    assert rows[..i + 1][..i] == rows[..i];
  }

  lemma {:induction false} CleanRowsStep(rows: seq<RawRow>, i: nat, name: string, email: string)
    requires i < |rows| && name == CellText(rows[i].nom) && email == CellText(rows[i].email)
    ensures CleanRows(rows[..i + 1])
      == CleanRows(rows[..i]) + if name != "" then [Record(name, email)] else []
  {
    CleanRowsSnoc(rows, i);
  }

  /** Every kept record has a non-empty name, and both its fields are already trimmed. */
  lemma {:induction false} CleanRowsTrimmed(rows: seq<RawRow>)
    ensures forall r :: r in CleanRows(rows) ==>
      r.name != "" && Strip(r.name) == r.name && Strip(r.email) == r.email
    decreases |rows|
  {
    if rows != [] {
      var last := rows[|rows| - 1];
      CleanRowsTrimmed(rows[..|rows| - 1]);
      StripIdempotent(last.nom.GetOr(""));
      StripIdempotent(last.email.GetOr(""));
    }
  }

  /** Filtering is compositional: the records of `a + b` are those of `a`, then those of `b`. */
  lemma {:induction false} CleanRowsAppend(a: seq<RawRow>, b: seq<RawRow>)
    ensures CleanRows(a + b) == CleanRows(a) + CleanRows(b)
    decreases |b|
  {
    if b == [] {
      assert a + b == a;
    } else {
      var b' := b[..|b| - 1];
      assert (a + b)[..|a + b| - 1] == a + b';
      assert (a + b)[|a + b| - 1] == b[|b| - 1];
      CleanRowsAppend(a, b');
    }
  }

  /** A single row is kept exactly when its trimmed name is non-empty. */
  lemma {:induction false} CleanRowsSingle(row: RawRow)
    ensures CleanRows([row]) == CleanRow(row)
    ensures |CleanRows([row])| == 1 <==> CellText(row.nom) != ""
  {
    assert [row][..0] == [];
  }

  /** A row with no name, or a blank one, never reaches the output. */
  lemma {:induction false} BlankNamesDropped(rows: seq<RawRow>)
    requires forall k :: 0 <= k < |rows| ==> CellText(rows[k].nom) == ""
    ensures CleanRows(rows) == []
    decreases |rows|
  {
    if rows != [] {
      BlankNamesDropped(rows[..|rows| - 1]);
    }
  }

  /**
    What the reader delivers before it stops: every row, or, when reading
    raises partway (a decoding error, a malformed file), the rows before the
    one at which it raises.
   */
  datatype CsvSource = CsvSource(rows: seq<RawRow>, raisesAt: Option<nat>)

  function Delivered(src: CsvSource): (rows: seq<RawRow>)
    ensures |rows| <= |src.rows| && rows == src.rows[..|rows|]
  {
    match src.raisesAt
    case Some(k) => if k < |src.rows| then src.rows[..k] else src.rows
    case None => src.rows
  }

  /** Reading stops at the end of the rows or at the row that raises. */
  lemma {:induction false} DeliveredUpTo(src: CsvSource, i: nat)
    requires i <= |src.rows|
    requires src.raisesAt.Some? ==> i <= src.raisesAt.value
    requires i == |src.rows| || src.raisesAt == Some(i)
    ensures Delivered(src) == src.rows[..i]
  {
  }

  /**
    `read_csv_rows(csv_file)`: no file gives no rows; otherwise the kept
    rows in order, and a failure while reading keeps those collected so far.
   */
  method ReadCsvRows(csvFile: Path, existing: set<Path>, src: CsvSource) returns (rows: seq<Record>)
    ensures csvFile !in existing ==> rows == []
    ensures csvFile in existing ==> rows == CleanRows(Delivered(src))
  {
    if csvFile !in existing {
      return [];
    }
    rows := CollectRows(src);
  }

  /** The loop of `read_csv_rows`: keep each row with a name until the reader stops or raises. */
  method CollectRows(src: CsvSource) returns (rows: seq<Record>)
    ensures rows == CleanRows(Delivered(src))
  {
    rows := [];
    var i := 0;
    while i < |src.rows| && src.raisesAt != Some(i)
      invariant 0 <= i <= |src.rows|
      invariant src.raisesAt.Some? ==> i <= src.raisesAt.value
      invariant rows == CleanRows(src.rows[..i])
    {
      var row := src.rows[i];
      var name := CellText(row.nom);
      var email := CellText(row.email);
      CleanRowsStep(src.rows, i, name, email);
      if name != "" {
        rows := rows + [Record(name, email)];
      }
      i := i + 1;
    }
    DeliveredUpTo(src, i);
  }
}
