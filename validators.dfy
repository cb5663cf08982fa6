/**
  The input checks of `validators.py`: the e-mail pattern, the name check,
  the per-row error list of a CSV file and the template path check.
 */
module Validators {
  import opened Wrappers
  import opened Strings
  import opened Paths
  import opened FileUtils

  // ---------------------------------------------------------------------
  // `validate_email`

  /** `[a-zA-Z0-9._%+-]`, the characters of the local part. */
  predicate LocalChar(c: char) {
    IsAsciiLetter(c) || IsDigit(c) || c == '.' || c == '_' || c == '%' || c == '+' || c == '-'
  }

  /** `[a-zA-Z0-9.-]`, the characters of the domain. */
  predicate DomainChar(c: char) {
    IsAsciiLetter(c) || IsDigit(c) || c == '.' || c == '-'
  }

  /**
    The pattern `[a-zA-Z0-9._%+-]+@[a-zA-Z0-9.-]+\.[a-zA-Z]{2,}` matches all of
    `s` with its `@` at `i` and its final `\.` at `j`.
   */
  predicate PatternAt(s: string, i: int, j: int) {
    0 < i && i + 1 < j && j + 2 < |s|
    && AllChars(s[..i], LocalChar) && s[i] == '@'
    && AllChars(s[i + 1..j], DomainChar) && s[j] == '.'
    && AllChars(s[j + 1..], IsAsciiLetter)
  }

  /** The pattern matches the whole of `s`, for some choice of its two split points. */
  predicate MatchesPattern(s: string) {
    exists i, j | 0 <= i < j < |s| :: PatternAt(s, i, j)
  }

  /** The domain part after the `@`: domain characters whose last `.` has one before it and two letters or more after it. */
  predicate MatchHost(d: string) {
    AllChars(d, DomainChar)
    && match LastIndexOf(d, '.')
       case None => false
       case Some(j) => j >= 1 && |d| - j - 1 >= 2 && AllChars(d[j + 1..], IsAsciiLetter)
  }

  /** A left-to-right recogniser for the pattern: split at the first `@`, then check each side. */
  predicate MatchEmail(s: string) {
    match Find(s, "@")
    case None => false
    case Some(i) => i > 0 && AllChars(s[..i], LocalChar) && MatchHost(s[i + 1..])
  }

  /**
    `validate_email(email)`: an empty address is refused; otherwise `re.match`
    with a final `$`, which also accepts the match followed by a single `\n`.
   */
  predicate ValidateEmail(email: string) {
    if email == "" then false
    else MatchEmail(email) || (email[|email| - 1] == '\n' && MatchEmail(email[..|email| - 1]))
  }

  /** The recogniser accepts exactly the strings the pattern matches. */
  lemma {:induction false} MatchEmailIffPattern(s: string)
    ensures MatchEmail(s) <==> MatchesPattern(s)
  {
    if MatchEmail(s) {
      MatchEmailGivesPattern(s);
    }
    if MatchesPattern(s) {
      var i, j :| PatternAt(s, i, j);
      PatternGivesMatch(s, i, j);
    }
  }

  lemma {:induction false} MatchEmailGivesPattern(s: string)
    requires MatchEmail(s)
    ensures MatchesPattern(s)
  {
    var i := Find(s, "@").value;
    var d := s[i + 1..];
    var jj := LastIndexOf(d, '.').value;
    var j := i + 1 + jj;
    assert s[i..i + 1] == "@";
    assert s[i + 1..j] == d[..jj];
    assert s[j + 1..] == d[jj + 1..];
    assert PatternAt(s, i, j);
  }

  lemma {:induction false} PatternGivesMatch(s: string, i: int, j: int)
    requires PatternAt(s, i, j)
    ensures MatchEmail(s)
  {
    forall k | 0 <= k < i ensures !OccursAt(s, "@", k) {
      assert s[k] == s[..i][k] && LocalChar(s[k]);
      assert s[k..k + 1] == [s[k]];
    }
    assert s[i..i + 1] == "@";
    FindIsLeftmost(s, "@", i);
    var d := s[i + 1..];
    var jj := j - i - 1;
    forall k | 0 <= k < |d| ensures DomainChar(d[k]) {
      if k < jj {
        assert d[k] == s[i + 1..j][k];
      } else if k > jj {
        assert d[k] == s[j + 1..][k - jj - 1];
      }
    }
    forall k | jj < k < |d| ensures d[k] != '.' {
      assert d[k] == s[j + 1..][k - jj - 1];
    }
    LastIndexOfIs(d, '.', jj);
    assert d[jj + 1..] == s[j + 1..];
  }

  /** `validate_email` is the pattern, on the address or on the address less one final `\n`. */
  lemma {:induction false} ValidateEmailIff(email: string)
    ensures ValidateEmail(email) <==>
      MatchesPattern(email)
      || (email != "" && email[|email| - 1] == '\n' && MatchesPattern(email[..|email| - 1]))
  {
    MatchEmailIffPattern(email);
    if email != "" {
      MatchEmailIffPattern(email[..|email| - 1]);
    }
  }

  /** An address matched by the pattern holds exactly one `@`, and it splits the address. */
  lemma {:induction false} PatternHasOneAt(s: string, i: int, j: int)
    requires PatternAt(s, i, j)
    ensures forall k :: 0 <= k < |s| && s[k] == '@' ==> k == i
  {
    forall k | 0 <= k < |s| && k != i ensures s[k] != '@' {
      if k < i {
        assert s[k] == s[..i][k] && LocalChar(s[k]);
      } else if k < j {
        assert s[k] == s[i + 1..j][k - i - 1] && DomainChar(s[k]);
      } else if k > j {
        assert s[k] == s[j + 1..][k - j - 1] && IsAsciiLetter(s[k]);
      }
    }
  }

  /**
    A stripped address cannot end in `\n`, so on the values `validate_csv_data`
    passes, `validate_email` is exactly the pattern.
   */
  lemma {:induction false} ValidateStrippedEmail(e: string)
    ensures ValidateEmail(Strip(e)) <==> MatchesPattern(Strip(e))
  {
    StripTrimmed(e);
    ValidateEmailIff(Strip(e));
  }

  /** A local part, a host, a dot and two letters or more: accepted, with or without a final `\n`. */
  lemma {:induction false} ValidateEmailAccepts(a: string, x: string, y: string)
    requires a != [] && AllChars(a, LocalChar)
    requires x != [] && AllChars(x, DomainChar)
    requires |y| >= 2 && AllChars(y, IsAsciiLetter)
    ensures ValidateEmail(a + "@" + x + "." + y)
    ensures ValidateEmail(a + "@" + x + "." + y + "\n")
  {
    var s := a + "@" + x + "." + y;
    var i := |a|;
    var j := |a| + 1 + |x|;
    assert s[..i] == a && s[i + 1..j] == x && s[j + 1..] == y;
    assert PatternAt(s, i, j);
    ValidateEmailIff(s);
    var t := s + "\n";
    assert t[..|t| - 1] == s;
    ValidateEmailIff(t);
  }

  /** Without an `@` nothing is accepted. */
  lemma {:induction false} ValidateEmailNeedsAt(s: string)
    requires '@' !in s
    ensures !ValidateEmail(s)
  {
    ValidateEmailIff(s);
    forall i, j | 0 <= i < j < |s| ensures !PatternAt(s, i, j) {
      assert s[i] in s;
    }
    if s != [] {
      var u := s[..|s| - 1];
      forall i, j | 0 <= i < j < |u| ensures !PatternAt(u, i, j) {
        assert u[i] == s[i] && s[i] in s;
      }
    }
  }

  /** An address that starts with `@` has an empty local part and is refused. */
  lemma {:induction false} ValidateEmailEmptyLocal(d: string)
    ensures !ValidateEmail("@" + d)
  {
    var s := "@" + d;
    assert OccursAt(s, "@", 0) by { assert s[0..1] == "@"; }
    if |s| > 1 {
      var u := s[..|s| - 1];
      assert OccursAt(u, "@", 0) by { assert u[0..1] == "@"; }
    }
  }

  /** A host that starts with its only dot (`test@.com`) is refused. */
  lemma {:induction false} ValidateEmailDotFirstHost(a: string, y: string)
    requires '@' !in a && '@' !in y && '.' !in y
    ensures !ValidateEmail(a + "@." + y)
  {
    var s := a + "@." + y;
    NoPatternDotFirstHost(s, a, y);
    ValidateEmailIff(s);
    if y != [] && y[|y| - 1] == '\n' {
      var y' := y[..|y| - 1];
      assert s[..|s| - 1] == a + "@." + y';
      assert '@' !in y' && '.' !in y' by {
        forall k | 0 <= k < |y'| ensures y'[k] != '@' && y'[k] != '.' {
          assert y'[k] == y[k] && y[k] in y;
        }
      }
      NoPatternDotFirstHost(s[..|s| - 1], a, y');
    } else if y == [] {
      assert s[|s| - 1] == '.';
    } else {
      assert s[|s| - 1] == y[|y| - 1];
    }
  }

  lemma {:induction false} NoPatternDotFirstHost(s: string, a: string, y: string)
    requires s == a + "@." + y
    requires '@' !in a && '@' !in y && '.' !in y
    ensures !MatchesPattern(s)
  {
    forall i, j | 0 <= i < j < |s| ensures !PatternAt(s, i, j) {
      assert i < |a| ==> s[i] == a[i] && a[i] in a;
      assert j > |a| + 1 ==> s[j] == y[j - |a| - 2] && y[j - |a| - 2] in y;
    }
  }

  /** Nothing after the `@` (`test@`) is refused. */
  lemma {:induction false} ValidateEmailEmptyHost(a: string)
    requires '@' !in a
    ensures !ValidateEmail(a + "@")
  {
    var s := a + "@";
    ValidateEmailIff(s);
    forall i, j | 0 <= i < j < |s| ensures !PatternAt(s, i, j) {
      assert i < |a| ==> s[i] == a[i] && a[i] in a;
    }
    assert s[|s| - 1] == '@';
  }

  // ---------------------------------------------------------------------
  // `validate_name`

  /** `validate_name(name)`: `None` or a name of whitespace only is refused. */
  predicate ValidateName(name: Option<string>) {
    name.Some? && Strip(name.value) != ""
  }

  /** A name is accepted exactly when it is present and not all whitespace. */
  lemma {:induction false} ValidateNameIff(name: Option<string>)
    ensures ValidateName(name) <==> name.Some? && !AllChars(name.value, IsSpace)
  {
    if name.Some? {
      StripEmptyIffBlank(name.value);
    }
  }

  // ---------------------------------------------------------------------
  // `validate_csv_data`

  /** The errors `validate_csv_data` reports; lines are numbered from 1. */
  datatype CsvError = NoData | MissingName(line: nat) | InvalidEmail(line: nat, email: string) {
    /** The line an error is about; `NoData` is about no line. */
    function LineOf(): nat {
      if NoData? then 0 else line
    }
  }

  /** The text of each error as the program logs it. */
  function ErrorMessage(e: CsvError): string {
    match e
    case NoData => "Aucune donnée trouvée dans le CSV"
    case MissingName(line) => "Ligne " + NatToString(line) + ": nom manquant ou invalide"
    case InvalidEmail(line, email) => "Ligne " + NatToString(line) + ": email invalide '" + email + "'"
  }

  /** The errors of the row at `line`: a missing name, then a present but invalid address. */
  function RowErrors(line: nat, row: RawRow): seq<CsvError> {
    var name := CellText(row.nom);
    var email := CellText(row.email);
    (if !ValidateName(Some(name)) then [MissingName(line)] else [])
    + (if email != "" && !ValidateEmail(email) then [InvalidEmail(line, email)] else [])
  }

  /** The errors of all rows, in row order, the last row being numbered `|rows|`. */
  function CsvErrors(rows: seq<RawRow>): seq<CsvError>
    decreases |rows|
  {
    if rows == [] then [] else CsvErrors(rows[..|rows| - 1]) + RowErrors(|rows|, rows[|rows| - 1])
  }

  /** A row is clean when it has a name and its address, if any, is valid. */
  predicate RowValid(row: RawRow) {
    CellText(row.nom) != "" && (CellText(row.email) == "" || ValidateEmail(CellText(row.email)))
  }

  lemma {:induction false} RowErrorsEmptyIff(line: nat, row: RawRow)
    ensures RowErrors(line, row) == [] <==> RowValid(row)
  {
    StripIdempotent(row.nom.GetOr(""));
  }

  /** No error at all exactly when every row is clean. */
  lemma {:induction false} CsvErrorsEmptyIff(rows: seq<RawRow>)
    ensures CsvErrors(rows) == [] <==> forall k :: 0 <= k < |rows| ==> RowValid(rows[k])
    decreases |rows|
  {
    if rows != [] {
      var n := |rows|;
      var init := rows[..n - 1];
      CsvErrorsEmptyIff(init);
      RowErrorsEmptyIff(n, rows[n - 1]);
      assert CsvErrors(rows) == CsvErrors(init) + RowErrors(n, rows[n - 1]);
      if CsvErrors(rows) == [] {
        forall k | 0 <= k < n ensures RowValid(rows[k]) {
          if k < n - 1 {
            assert rows[k] == init[k];
          }
        }
      } else if CsvErrors(init) != [] {
        var k :| 0 <= k < |init| && !RowValid(init[k]);
        assert rows[k] == init[k];
      }
    }
  }

  /**
    Every error names a line of the input, never `NoData`, never an empty
    address, and the lines never go backwards.
   */
  lemma {:induction false} CsvErrorsWellFormed(rows: seq<RawRow>)
    ensures forall e :: e in CsvErrors(rows) ==> !e.NoData? && 1 <= e.LineOf() <= |rows|
    ensures forall e :: e in CsvErrors(rows) && e.InvalidEmail? ==> e.email != ""
    ensures forall a, b :: 0 <= a < b < |CsvErrors(rows)| ==> CsvErrors(rows)[a].LineOf() <= CsvErrors(rows)[b].LineOf()
    ensures |CsvErrors(rows)| <= 2 * |rows|
    decreases |rows|
  {
    if rows != [] {
      var init := rows[..|rows| - 1];
      CsvErrorsWellFormed(init);
      var xs: seq<CsvError> := CsvErrors(init);
      var ys: seq<CsvError> := RowErrors(|rows|, rows[|rows| - 1]);
      var zs: seq<CsvError> := xs + ys;
      assert CsvErrors(rows) == zs;
      forall a: int, b: int | 0 <= a < b < |zs| ensures zs[a].LineOf() <= zs[b].LineOf() {
        if b >= |xs| {
          assert zs[b] in ys;
          if a < |xs| {
            assert zs[a] in xs;
          } else {
            assert zs[a] in ys;
          }
        }
      }
    }
  }

  /**
    `validate_csv_data(rows)`: no rows is the single error `NoData`; otherwise
    the errors of each row in order, and the verdict is that there are none.
   */
  method ValidateCsvData(rows: seq<RawRow>) returns (ok: bool, errors: seq<CsvError>)
    ensures rows == [] ==> errors == [NoData]
    ensures rows != [] ==> errors == CsvErrors(rows)
    ensures ok <==> errors == []
  {
    if rows == [] {
      return false, [NoData];
    }
    errors := CollectErrors(rows);
    ok := |errors| == 0;
  }

  /** The loop of `validate_csv_data` over the numbered rows. */
  method CollectErrors(rows: seq<RawRow>) returns (errors: seq<CsvError>)
    ensures errors == CsvErrors(rows)
  {
    errors := [];
    var i := 0;
    while i < |rows|
      invariant 0 <= i <= |rows|
      invariant errors == CsvErrors(rows[..i])
    {
      var name := CellText(rows[i].nom);
      var email := CellText(rows[i].email);
      CsvErrorsStep(rows, i, name, email);
      if !ValidateName(Some(name)) {
        errors := errors + [MissingName(i + 1)];
      }
      if email != "" && !ValidateEmail(email) {
        errors := errors + [InvalidEmail(i + 1, email)];
      }
      i := i + 1;
    }
    assert rows[..i] == rows;
  }

  lemma {:induction false} CsvErrorsStep(rows: seq<RawRow>, i: nat, name: string, email: string)
    requires i < |rows| && name == CellText(rows[i].nom) && email == CellText(rows[i].email)
    ensures CsvErrors(rows[..i + 1]) == CsvErrors(rows[..i])
      + (if !ValidateName(Some(name)) then [MissingName(i + 1)] else [])
      + (if email != "" && !ValidateEmail(email) then [InvalidEmail(i + 1, email)] else [])
  {
    assert rows[..i + 1][..i] == rows[..i];
  }

  // ---------------------------------------------------------------------
  // `validate_template_file`

  /** A name whose last five characters are `.docx` in any case, after a non-empty stem. */
  predicate IsDocxName(name: string) {
    |name| >= 6 && Lower(name[|name| - 5..]) == ".docx"
  }

  /**
    `validate_template_file(path)`: a missing file first, then a suffix other
    than `.docx` ignoring case; `(True, "")` otherwise.
   */
  function ValidateTemplateFile(p: Path, existing: set<Path>): (r: (bool, string))
    ensures p !in existing ==> r == (false, "Fichier template introuvable: " + PathText(p))
    ensures r.0 ==> r.1 == ""
  {
    if p !in existing then (false, "Fichier template introuvable: " + PathText(p))
    else if Lower(Suffix(p.name)) != ".docx" then (false, "Le fichier template doit être un .docx: " + PathText(p))
    else (true, "")
  }

  /** The template is accepted exactly when it exists and its name ends in `.docx`, in any case, after a non-empty stem. */
  lemma {:induction false} TemplateAcceptedIff(p: Path, existing: set<Path>)
    ensures ValidateTemplateFile(p, existing).0 <==> p in existing && IsDocxName(p.name)
  {
    DocxSuffixIff(p.name);
  }

  lemma {:induction false} DocxSuffixIff(name: string)
    ensures Lower(Suffix(name)) == ".docx" <==> IsDocxName(name)
  {
    if Lower(Suffix(name)) == ".docx" {
      var i := SuffixStart(name).value;
      assert |name[i..]| == 5;
      assert name[i..] == name[|name| - 5..];
    }
    if IsDocxName(name) {
      var n := |name|;
      var tail := name[n - 5..];
      assert LowerChar(tail[0]) == '.';
      forall k | n - 5 < k < n ensures name[k] != '.' {
        assert name[k] == tail[k - (n - 5)];
        assert LowerChar(tail[k - (n - 5)]) != '.';
      }
      LastIndexOfIs(name, '.', n - 5);
      assert Suffix(name) == tail;
    }
  }

  /** The name alone, `.docx`, has no suffix in `pathlib`'s sense and is refused. */
  lemma {:induction false} BareExtensionRefused(p: Path, existing: set<Path>)
    requires p.name == ".docx"
    ensures !ValidateTemplateFile(p, existing).0
  {
    TemplateAcceptedIff(p, existing);
  }
}
