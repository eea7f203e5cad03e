/** The in-memory course catalogue of the backend: the two courses it starts
    with, and the CSV loader that replaces it, reduced to the step from
    parsed records to courses (opening and splitting the file are outside
    the model and arrive as an optional list of records). */
module CursoService {
  import opened Common
  import opened Dates
  import opened Models
  import CursoController

  // ---------------------------------------------------------------------------
  // atoiSafe: fmt.Sscanf(s, "%d", &n)

  /** The code points `fmt` treats as space before a number; a newline is not
      one of them when scanning with `Sscanf`, it ends the scan. */
  predicate IsScanSpace(c: char) {
    var k := c as int;
    k == 0x09 || k == 0x0B || k == 0x0C || k == 0x0D || k == 0x20 || k == 0x85
    || k == 0xA0 || k == 0x1680 || (0x2000 <= k <= 0x200A) || k == 0x2028
    || k == 0x2029 || k == 0x202F || k == 0x205F || k == 0x3000
  }

  function SkipScanSpace(s: string): (r: string)
    ensures |r| <= |s| && r == s[|s| - |r|..]
    ensures |r| == 0 || !IsScanSpace(r[0])
    ensures forall i :: 0 <= i < |s| - |r| ==> IsScanSpace(s[i])
    decreases |s|
  {
    if |s| > 0 && IsScanSpace(s[0]) then SkipScanSpace(s[1..]) else s
  }

  /** `atoiSafe`: skip leading space, read an optional sign and the digits
      that follow, and keep the value if it fits a 64-bit `int`. When no
      integer can be read, or it overflows, `n` keeps its zero value. */
  function AtoiSafe(s: string): (n: int)
    ensures INT64_MIN <= n < INT64_LIMIT
  {
    var t := SkipScanSpace(s);
    var signed := |t| > 0 && (t[0] == '-' || t[0] == '+');
    var body := if signed then t[1..] else t;
    var digits := LeadingDigits(body);
    if |digits| == 0 then 0
    else
      var v: int := if signed && t[0] == '-' then 0 - DigitsValue(digits) else DigitsValue(digits) as int;
      if INT64_MIN <= v < INT64_LIMIT then v else 0
  }

  /** Reading back a printed integer: `atoiSafe` of the decimal rendering of
      any 64-bit value, with or without a minus sign and whatever non-digit
      text follows, is that value. */
  lemma AtoiSafeReadsPrinted(n: nat, rest: string)
    requires |rest| == 0 || !IsDigit(rest[0])
    ensures n < INT64_LIMIT ==> AtoiSafe(NatToString(n) + rest) == n
    ensures n <= -INT64_MIN ==> AtoiSafe("-" + NatToString(n) + rest) == -(n as int)
  {
    var d := NatToString(n);
    LeadingDigitsOf(d, rest);
    ReadsNegative(d, rest);
    ReadsNonNegative(d, rest);
  }

  lemma ReadsNegative(d: string, rest: string)
    requires |d| > 0 && AllDigits(d) && LeadingDigits(d + rest) == d
    ensures AtoiSafe("-" + d + rest) == (var v := 0 - DigitsValue(d); if INT64_MIN <= v then v else 0)
  {
    var s := "-" + d + rest;
    assert SkipScanSpace(s) == s;
    assert s[1..] == d + rest;
  }

  lemma ReadsNonNegative(d: string, rest: string)
    requires |d| > 0 && AllDigits(d) && LeadingDigits(d + rest) == d
    ensures AtoiSafe(d + rest) == (var v := DigitsValue(d) as int; if v < INT64_LIMIT then v else 0)
  {
    var s := d + rest;
    assert s[0] == d[0] && IsDigit(s[0]);
    assert !IsScanSpace(s[0]) && s[0] != '-' && s[0] != '+';
    assert SkipScanSpace(s) == s;
  }

  /** Text with no digit after the optional space and sign reads as 0. */
  lemma AtoiSafeNoDigits(s: string)
    requires var t := SkipScanSpace(s);
      var body := if |t| > 0 && (t[0] == '-' || t[0] == '+') then t[1..] else t;
      |body| == 0 || !IsDigit(body[0])
    ensures AtoiSafe(s) == 0
  {
  }

  /** `id, _ := strconv.ParseUint(record[0], 10, 64)`: 0 on a syntax error,
      the largest `uint64` on a range error, which wins when the leading
      digits overflow even if a non-digit follows them. */
  function ParseUintOrZero(s: string): (n: nat)
    ensures n < UINT64_LIMIT
    ensures DigitsValue(LeadingDigits(s)) >= UINT64_LIMIT ==> n == UINT64_LIMIT - 1
    ensures DigitsValue(LeadingDigits(s)) < UINT64_LIMIT && (|s| == 0 || !AllDigits(s)) ==> n == 0
    ensures |s| > 0 && AllDigits(s) && DigitsValue(s) < UINT64_LIMIT ==> n == DigitsValue(s)
  {
    match CursoController.ParseUint(s)
    case Parsed(v) => v
    case SyntaxError => 0
    case RangeError => UINT64_LIMIT - 1
  }

  // ---------------------------------------------------------------------------
  // Records to courses

  /** The number of fields a CSV line needs to become a course. */
  const FIELDS: nat := 9

  /** The course read from one complete record: fields 0 to 8 are the id,
      name, description, start date, end date, duration, capacity, place and
      modality. */
  function CursoFromRecord(record: seq<string>): (c: Curso)
    requires |record| >= FIELDS
    ensures c.nombre == record[1] && c.descripcion == record[2]
    ensures c.lugar == record[7] && c.modalidad == record[8]
    ensures c.fechaInicio == ParseDateOrZero(record[3]) && c.fechaFin == ParseDateOrZero(record[4])
    ensures c.id == ParseUintOrZero(record[0])
    ensures c.duracionMin == AtoiSafe(record[5]) && c.capacidad == AtoiSafe(record[6])
  {
    Curso(ParseUintOrZero(record[0]), record[1], record[2],
          ParseDateOrZero(record[3]), ParseDateOrZero(record[4]),
          AtoiSafe(record[5]), AtoiSafe(record[6]), record[7], record[8])
  }

  predicate Complete(record: seq<string>) {
    |record| >= FIELDS
  }

  /** The records that become courses: every one after the header that has
      all nine fields, in file order. */
  function KeptRecords(records: seq<seq<string>>): (r: seq<seq<string>>)
    ensures forall i :: 0 <= i < |r| ==> |r[i]| >= FIELDS
  {
    if |records| == 0 then [] else Filter(records[1..], Complete)
  }

  /** The header record never matters, whatever it holds. */
  lemma HeaderIgnored(h1: seq<string>, h2: seq<string>, rest: seq<seq<string>>)
    ensures KeptRecords([h1] + rest) == KeptRecords([h2] + rest)
  {
    assert ([h1] + rest)[1..] == rest == ([h2] + rest)[1..];
  }

  /** A record past the header is kept exactly when it is complete. */
  lemma KeptRecordsStep(records: seq<seq<string>>, i: nat)
    requires 0 < i < |records|
    ensures KeptRecords(records[..i + 1])
         == KeptRecords(records[..i]) + (if Complete(records[i]) then [records[i]] else [])
  {
    assert records[..i + 1][1..] == records[..i][1..] + [records[i]];
    FilterAppend(records[..i][1..], [records[i]], Complete);
    assert Filter([records[i]], Complete) == (if Complete(records[i]) then [records[i]] else []) by {
      assert [records[i]][1..] == [];
    }
  }

  /** The courses read from a list of complete records, one each, in order. */
  function Courses(kept: seq<seq<string>>): (r: seq<Curso>)
    requires forall j :: 0 <= j < |kept| ==> |kept[j]| >= FIELDS
    ensures |r| == |kept|
  {
    if |kept| == 0 then []
    else Courses(kept[..|kept| - 1]) + [CursoFromRecord(kept[|kept| - 1])]
  }

  /** Course `j` is the one read from record `j`. */
  lemma {:induction false} CoursesAt(kept: seq<seq<string>>, j: nat)
    requires forall j :: 0 <= j < |kept| ==> |kept[j]| >= FIELDS
    requires j < |kept|
    ensures Courses(kept)[j] == CursoFromRecord(kept[j])
  {
    if j < |kept| - 1 {
      CoursesAt(kept[..|kept| - 1], j);
    }
  }

  /** The courses the loop has built after looking at the first `n` records:
      nothing for the header, then one per complete record. */
  function CoursesRead(records: seq<seq<string>>, n: nat): seq<Curso>
    requires n <= |records|
  {
    if n <= 1 then []
    else CoursesRead(records, n - 1) + (if Complete(records[n - 1]) then [CursoFromRecord(records[n - 1])] else [])
  }

  /** Looking at one more record adds its course when it is a complete
      record past the header, and nothing otherwise. */
  lemma CoursesReadNext(records: seq<seq<string>>, i: nat)
    requires i < |records|
    ensures i > 0 && Complete(records[i]) ==>
      CoursesRead(records, i + 1) == CoursesRead(records, i) + [CursoFromRecord(records[i])]
    ensures !(i > 0 && Complete(records[i])) ==> CoursesRead(records, i + 1) == CoursesRead(records, i)
  {
  }

  /** What the loop builds is the course of each kept record, in order. */
  lemma {:induction false} CoursesReadKept(records: seq<seq<string>>, n: nat)
    requires n <= |records|
    ensures CoursesRead(records, n) == Courses(KeptRecords(records[..n]))
  {
    if n == 0 {
    } else if n == 1 {
      assert records[..1][1..] == [];
    } else {
      var r := records[n - 1];
      var k := KeptRecords(records[..n - 1]);
      CoursesReadKept(records, n - 1);
      assert CoursesRead(records, n - 1) == Courses(k);
      KeptRecordsStep(records, n - 1);
      assert records[..n - 1 + 1] == records[..n];
      if Complete(r) {
        var k' := k + [r];
        assert KeptRecords(records[..n]) == k';
        assert k'[..|k'| - 1] == k;
        assert Courses(k') == Courses(k) + [CursoFromRecord(r)];
        assert CoursesRead(records, n) == CoursesRead(records, n - 1) + [CursoFromRecord(r)];
      } else {
        assert KeptRecords(records[..n]) == k;
        assert CoursesRead(records, n) == CoursesRead(records, n - 1);
      }
    }
  }

  /** Once every record is read, the loop holds one course per kept record,
      in order. */
  lemma AllCoursesRead(records: seq<seq<string>>)
    ensures var cs := CoursesRead(records, |records|);
      && |cs| == |KeptRecords(records)|
      && forall j :: 0 <= j < |cs| ==> cs[j] == CursoFromRecord(KeptRecords(records)[j])
  {
    CoursesReadKept(records, |records|);
    assert records[..|records|] == records;
    var kept := KeptRecords(records);
    forall j | 0 <= j < |kept|
      ensures Courses(kept)[j] == CursoFromRecord(kept[j])
    {
      CoursesAt(kept, j);
    }
  }

  /** The records-to-courses loop of `CargarCursosDesdeCSV`. `read` is the
      list of records, or `None` when opening or reading the file failed;
      then `err` is set and the catalogue is kept. On success the new
      catalogue replaces the old one completely: one course per kept record,
      in file order. */
  method CargarCursosDesdeCsv(catalogue: seq<Curso>, read: Option<seq<seq<string>>>)
    returns (err: bool, updated: seq<Curso>)
    ensures err <==> read.None?
    ensures err ==> updated == catalogue
    ensures !err ==> |updated| == |KeptRecords(read.value)|
    ensures !err ==> forall j :: 0 <= j < |updated| ==>
      updated[j] == CursoFromRecord(KeptRecords(read.value)[j])
  {
    if read.None? {
      return true, catalogue;
    }
    var records := read.value;
    var cursos: seq<Curso> := [];
    var i := 0;
    while i < |records|
      invariant 0 <= i <= |records|
      invariant cursos == CoursesRead(records, i)
    {
      CoursesReadNext(records, i);
      if i > 0 && |records[i]| >= FIELDS {
        cursos := cursos + [CursoFromRecord(records[i])];
      }
      i := i + 1;
    }
    AllCoursesRead(records);
    return false, cursos;
  }

  /** Courses read from a file: the count is the number of complete records
      after the header. */
  lemma KeptRecordsCount(records: seq<seq<string>>)
    requires |records| > 0
    ensures |KeptRecords(records)| == Count(records[1..], Complete)
  {
    FilterLength(records[1..], Complete);
  }

  // ---------------------------------------------------------------------------
  // The initial catalogue

  /** The two example courses the catalogue holds before any file is loaded. */
  function SeedCatalogue(): seq<Curso> {
    var fecha1 := ParseDateOrZero("2025-06-01");
    var fecha2 := ParseDateOrZero("2025-07-01");
    [ Curso(1, "Introducción a React", "Curso básico de React para principiantes",
            fecha1, fecha1, 120, 30, "Aula 1", "presencial"),
      Curso(2, "Backend con Go", "Aprende a crear APIs REST con Go y Gin",
            fecha2, fecha2, 180, 25, "Aula 2", "presencial") ]
  }

  /** The initial catalogue: two single-day, in-person courses with ids 1 and
      2, on 1 June and 1 July 2025. */
  lemma SeedCatalogueContents()
    ensures var s := SeedCatalogue();
      && |s| == 2 && s[0].id == 1 && s[1].id == 2
      && s[0].fechaInicio == s[0].fechaFin == Date(2025, 6, 1)
      && s[1].fechaInicio == s[1].fechaFin == Date(2025, 7, 1)
      && s[0].modalidad == s[1].modalidad == "presencial"
  {
    ParseDateDigits("2025-06-01");
    ParseDateDigits("2025-07-01");
  }

  /** Deleting course 1 from the initial catalogue leaves course 2 alone. */
  lemma DeleteFromSeed()
    ensures CursoController.EliminarCurso(SeedCatalogue(), "1")
         == (CursoController.EliminarOutcome(200, CursoController.MsgEliminado), [SeedCatalogue()[1]])
  {
    var s := SeedCatalogue();
    var keep := (c: Curso) => c.id != 1;
    assert CursoController.ParseUint("1") == CursoController.Parsed(1) by {
      assert "1"[..0] == [];
    }
    assert s[0].id == 1;
    assert Filter(s, keep) == [s[1]] by {
      assert s[1..][1..] == [];
      assert Filter(s[1..], keep) == [s[1]];
    }
  }
}
