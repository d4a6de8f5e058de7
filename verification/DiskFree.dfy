/** Reading the output of df: a filesystem is printed on one line of six fields or, when the device name is long,
    as a line with the device and a line with the other five. */
module DiskFree {
  import opened Wrappers
  import opened Text

  const MAX_UINT64 := 0xFFFF_FFFF_FFFF_FFFF

  datatype FileSystem = FileSystem(mountPoint: string, used: nat, free: nat)

  /** unicode.IsSpace. */
  predicate IsSpace(c: char) {
    || '\t' <= c <= '\r' || c == ' ' || c == '\U{85}' || c == '\U{A0}' || c == '\U{1680}'
    || '\U{2000}' <= c <= '\U{200A}' || c == '\U{2028}' || c == '\U{2029}' || c == '\U{202F}'
    || c == '\U{205F}' || c == '\U{3000}'
  }

  /** The longest prefix without a space. */
  function Word(s: string): (w: string)
    ensures |w| <= |s| && w == s[..|w|]
    ensures forall c :: c in w ==> !IsSpace(c)
  {
    if s == "" || IsSpace(s[0]) then "" else [s[0]] + Word(s[1..])
  }

  /** strings.Fields. */
  function Fields(s: string): seq<string>
    decreases |s|
  {
    if s == "" then []
    else if IsSpace(s[0]) then Fields(s[1..])
    else
      assert Word(s) != "";
      [Word(s)] + Fields(s[|Word(s)|..])
  }

  /** strconv.ParseUint in base 10 with 64 bits. */
  function ParseUint(s: string): Option<nat> {
    match ParseNat(s)
    case None => None
    case Some(n) => if n <= MAX_UINT64 then Some(n) else None
  }

  /** A decimal number is read when it fits into 64 bits. */
  lemma ParseUintExactly(n: nat)
    ensures ParseUint(Itoa(n)) == if n <= 18446744073709551615 then Some(n) else None
  {
    ParseItoa(n);
  }

  predicate IsDev(field: string) {
    "/dev/" <= field
  }

  // ---------- the parser ----------

  /** The file system that the fields give when shift of them were on the line before. */
  function Reading(parts: seq<string>, shift: nat): seq<FileSystem>
    requires shift <= 1 && |parts| + shift >= 6
  {
    match (ParseUint(parts[2 - shift]), ParseUint(parts[3 - shift]))
    case (Some(used), Some(free)) => [FileSystem(parts[5 - shift], used, free)]
    case _ => []
  }

  datatype Parsed = Parsed(fileSystems: seq<FileSystem>, flag: nat)

  function ParseLine(p: Parsed, parts: seq<string>): Parsed
    requires p.flag <= 1
  {
    var dev := parts != [] && IsDev(parts[0]);
    if |parts| == 1 && dev then p.(flag := 1)
    else if (|parts| == 5 && p.flag == 1) || (|parts| == 6 && dev)
    then Parsed(p.fileSystems + Reading(parts, p.flag), 0)
    else p
  }

  function ParseLines(p: Parsed, lines: seq<string>): (r: Parsed)
    requires p.flag <= 1
    ensures r.flag <= 1
  {
    if lines == [] then p
    else ParseLine(ParseLines(p, lines[..|lines| - 1]), Fields(lines[|lines| - 1]))
  }

  lemma ParseNext(lines: seq<string>, k: nat)
    requires k < |lines|
    ensures ParseLines(Parsed([], 0), lines[..k + 1])
         == ParseLine(ParseLines(Parsed([], 0), lines[..k]), Fields(lines[k]))
  {
    assert lines[..k + 1][..k] == lines[..k];
  }

  method GetFileSystems(output: string) returns (fileSystems: seq<FileSystem>)
    ensures fileSystems == ParseLines(Parsed([], 0), Split(output, '\n')).fileSystems
  {
    fileSystems := [];
    var lines := Split(output, '\n');
    var flag := 0;
    for k := 0 to |lines|
      invariant flag <= 1
      invariant ParseLines(Parsed([], 0), lines[..k]) == Parsed(fileSystems, flag)
    {
      ParseNext(lines, k);
      var parts := Fields(lines[k]);
      var n := |parts|;
      var dev := n > 0 && IsDev(parts[0]);
      ghost var before := Parsed(fileSystems, flag);
      if n == 1 && dev {
        flag := 1;
      } else if (n == 5 && flag == 1) || (n == 6 && dev) {
        var i := flag;
        flag := 0;
        var used := ParseUint(parts[2 - i]);
        if used.Some? {
          var free := ParseUint(parts[3 - i]);
          if free.Some? {
            fileSystems := fileSystems + [FileSystem(parts[5 - i], used.value, free.value)];
          }
        }
        assert fileSystems == before.fileSystems + Reading(parts, i);
      }
      assert Parsed(fileSystems, flag) == ParseLine(before, parts);
    }
    assert lines[..|lines|] == lines;
  }

  // ---------- the printer ----------

  /** A mount point may hold spaces: it is one word or more. */
  datatype Row = Row(device: string, total: string, used: string, available: string, percent: string,
                     mount: seq<string>)

  predicate IsField(s: string) {
    s != "" && forall c :: c in s ==> !IsSpace(c)
  }

  predicate WellFormed(r: Row) {
    IsField(r.device) && IsField(r.total) && IsField(r.used) && IsField(r.available) && IsField(r.percent)
    && r.mount != [] && (forall k :: 0 <= k < |r.mount| ==> IsField(r.mount[k]))
    && (Spaced(r) ==> !IsDev(r.total))
  }

  predicate Spaced(r: Row) {
    |r.mount| > 1
  }

  /** Padding inside a line. */
  predicate IsPad(s: string) {
    forall c :: c in s ==> IsSpace(c) && c != '\n'
  }

  /** Each field after its padding; the padding before the first field may be empty. */
  function PrintFields(fields: seq<string>, pads: seq<string>): string
    requires |fields| == |pads|
  {
    if fields == [] then "" else pads[0] + fields[0] + PrintFields(fields[1..], pads[1..])
  }

  predicate Padded(fields: seq<string>, pads: seq<string>) {
    && |fields| == |pads|
    && (forall i :: 0 <= i < |fields| ==> IsField(fields[i]) && IsPad(pads[i]))
    && (forall i :: 1 <= i < |fields| ==> pads[i] != "")
  }

  datatype Layout =
    | Whole(row: Row, pads: seq<string>)
    | Wrapped(row: Row, pads: seq<string>, indents: seq<string>)

  function RowFields(r: Row): seq<string> {
    [r.device] + Numbers(r)
  }

  /** The fields after the device. */
  function Numbers(r: Row): seq<string> {
    [r.total, r.used, r.available, r.percent] + r.mount
  }

  predicate Proper(l: Layout) {
    && WellFormed(l.row)
    && match l
       case Whole(r, pads) => Padded(RowFields(r), pads)
       case Wrapped(r, pads, indents) => Padded([r.device], pads) && Padded(Numbers(r), indents)
  }

  function Lines(l: Layout): seq<string>
    requires Proper(l)
  {
    match l
    case Whole(r, pads) => [PrintFields(RowFields(r), pads)]
    case Wrapped(r, pads, indents) =>
      [PrintFields([r.device], pads), PrintFields(Numbers(r), indents)]
  }

  predicate AllProper(ls: seq<Layout>) {
    ls == [] || (Proper(ls[0]) && AllProper(ls[1..]))
  }

  function AllLines(ls: seq<Layout>): seq<string>
    requires AllProper(ls)
  {
    if ls == [] then [] else Lines(ls[0]) + AllLines(ls[1..])
  }

  /** What a row should be read as: nothing unless it is a device's with readable numbers. */
  function Meaning(r: Row): seq<FileSystem> {
    if !IsDev(r.device) then []
    else
      match (ParseUint(r.used), ParseUint(r.available))
      case (Some(used), Some(free)) => [FileSystem(Join(r.mount, " "), used, free)]
      case _ => []
  }

  function Meanings(ls: seq<Layout>): seq<FileSystem> {
    if ls == [] then [] else Meaning(ls[0].row) + Meanings(ls[1..])
  }

  // ---------- reading back what is printed ----------

  lemma {:induction false} FieldsPad(pad: string, rest: string)
    requires IsPad(pad)
    ensures Fields(pad + rest) == Fields(rest)
  {
    if pad == "" {
      assert pad + rest == rest;
    } else {
      assert (pad + rest)[1..] == pad[1..] + rest;
      FieldsPad(pad[1..], rest);
    }
  }

  lemma {:induction false} WordField(f: string, rest: string)
    requires forall c :: c in f ==> !IsSpace(c)
    requires rest == "" || IsSpace(rest[0])
    ensures Word(f + rest) == f
  {
    if f == "" {
      assert f + rest == rest;
    } else {
      assert (f + rest)[1..] == f[1..] + rest;
      WordField(f[1..], rest);
    }
  }

  lemma {:induction false} FieldsPrinted(fields: seq<string>, pads: seq<string>)
    requires Padded(fields, pads)
    ensures Fields(PrintFields(fields, pads)) == fields
  {
    if fields == [] {
    } else {
      var f, rest := fields[0], PrintFields(fields[1..], pads[1..]);
      FieldsPrinted(fields[1..], pads[1..]);
      if |fields| > 1 {
        assert rest == pads[1] + fields[1] + PrintFields(fields[2..], pads[2..]);
        assert IsSpace(rest[0]);
      }
      assert pads[0] + f + rest == pads[0] + (f + rest);
      FieldsPad(pads[0], f + rest);
      WordField(f, rest);
      assert (f + rest)[|f|..] == rest;
    }
  }

  // ---------- what a layout is read as, with the flag lowered or raised ----------

  /** The reading of a whole row when a field is taken to be on the line before. */
  function Early(r: Row): seq<FileSystem> {
    match (ParseUint(r.total), ParseUint(r.used))
    case (Some(total), Some(used)) => [FileSystem(r.percent, total, used)]
    case _ => []
  }

  /** The reading of a row as if it were a device's. */
  function AsDevice(r: Row): seq<FileSystem> {
    Meaning(r.(device := "/dev/"))
  }

  function ReadAs(flag: nat, l: Layout): seq<FileSystem> {
    if Spaced(l.row) then []
    else
      match l
      case Whole(r, _) => if !IsDev(r.device) then [] else if flag == 0 then Meaning(r) else Early(r)
      case Wrapped(r, _, _) => if flag == 0 then Meaning(r) else AsDevice(r)
  }

  /** A device line raises the flag; it stays up until a line of five fields, or a whole row of a device, is
      read. */
  function FlagAfter(flag: nat, l: Layout): (f: nat)
    requires flag <= 1
    ensures f <= 1
  {
    match l
    case Whole(r, _) => if IsDev(r.device) && !Spaced(r) then 0 else flag
    case Wrapped(r, _, _) => if !Spaced(r) then 0 else if IsDev(r.device) then 1 else flag
  }

  lemma LayoutRead(p: Parsed, l: Layout)
    requires p.flag <= 1 && Proper(l)
    ensures ParseLines(p, Lines(l)) == Parsed(p.fileSystems + ReadAs(p.flag, l), FlagAfter(p.flag, l))
  {
    match l
    case Whole(_, _) => WholeRead(p, l);
    case Wrapped(_, _, _) => WrappedRead(p, l);
  }

  lemma OneLine(p: Parsed, line: string)
    requires p.flag <= 1
    ensures ParseLines(p, [line]) == ParseLine(p, Fields(line))
  {
    assert [line][..0] == [];
  }

  lemma TwoLines(p: Parsed, a: string, b: string)
    requires p.flag <= 1
    ensures ParseLines(p, [a, b]) == ParseLine(ParseLine(p, Fields(a)), Fields(b))
  {
    assert [a, b][..1] == [a];
    OneLine(p, a);
  }

  lemma WholeRead(p: Parsed, l: Layout)
    requires p.flag <= 1 && Proper(l) && l.Whole?
    ensures ParseLines(p, Lines(l)) == Parsed(p.fileSystems + ReadAs(p.flag, l), FlagAfter(p.flag, l))
  {
    FieldsPrinted(RowFields(l.row), l.pads);
    OneLine(p, PrintFields(RowFields(l.row), l.pads));
    WholeFields(p, l);
  }

  lemma WholeFields(p: Parsed, l: Layout)
    requires p.flag <= 1 && WellFormed(l.row) && l.Whole?
    ensures ParseLine(p, RowFields(l.row)) == Parsed(p.fileSystems + ReadAs(p.flag, l), FlagAfter(p.flag, l))
  {
    assert p.fileSystems + [] == p.fileSystems;
    OneWord(l.row);
  }

  lemma WrappedRead(p: Parsed, l: Layout)
    requires p.flag <= 1 && Proper(l) && l.Wrapped?
    ensures ParseLines(p, Lines(l)) == Parsed(p.fileSystems + ReadAs(p.flag, l), FlagAfter(p.flag, l))
  {
    FieldsPrinted([l.row.device], l.pads);
    FieldsPrinted(Numbers(l.row), l.indents);
    TwoLines(p, PrintFields([l.row.device], l.pads), PrintFields(Numbers(l.row), l.indents));
    WrappedFields(p, l);
  }

  lemma WrappedFields(p: Parsed, l: Layout)
    requires p.flag <= 1 && WellFormed(l.row) && l.Wrapped?
    ensures ParseLine(ParseLine(p, [l.row.device]), Numbers(l.row))
         == Parsed(p.fileSystems + ReadAs(p.flag, l), FlagAfter(p.flag, l))
  {
    assert p.fileSystems + [] == p.fileSystems;
    assert ParseLine(p, [l.row.device]) == p.(flag := if IsDev(l.row.device) then 1 else p.flag);
    OneWord(l.row);
  }

  lemma OneWord(r: Row)
    ensures |r.mount| == 1 ==> Join(r.mount, " ") == r.mount[0]
  {}

  lemma {:induction false} ParseConcat(p: Parsed, a: seq<string>, b: seq<string>)
    requires p.flag <= 1
    ensures ParseLines(p, a + b) == ParseLines(ParseLines(p, a), b)
  {
    if b == [] {
      assert a + b == a;
    } else {
      assert (a + b)[..|a + b| - 1] == a + b[..|b| - 1];
      ParseConcat(p, a, b[..|b| - 1]);
    }
  }

  /** The flag after some layouts. */
  function FlagOf(flag: nat, ls: seq<Layout>): (f: nat)
    requires flag <= 1
    ensures f <= 1
    decreases |ls|
  {
    if ls == [] then flag else FlagOf(FlagAfter(flag, ls[0]), ls[1..])
  }

  function Readings(flag: nat, ls: seq<Layout>): seq<FileSystem>
    requires flag <= 1
    decreases |ls|
  {
    if ls == [] then [] else ReadAs(flag, ls[0]) + Readings(FlagAfter(flag, ls[0]), ls[1..])
  }

  lemma FirstThenRest(p: Parsed, l: Layout, lines: seq<string>)
    requires p.flag <= 1 && Proper(l)
    ensures ParseLines(p, Lines(l) + lines)
         == ParseLines(Parsed(p.fileSystems + ReadAs(p.flag, l), FlagAfter(p.flag, l)), lines)
  {
    ParseConcat(p, Lines(l), lines);
    LayoutRead(p, l);
  }

  lemma {:induction false} LayoutsRead(fileSystems: seq<FileSystem>, flag: nat, ls: seq<Layout>)
    requires flag <= 1 && AllProper(ls)
    ensures ParseLines(Parsed(fileSystems, flag), AllLines(ls))
         == Parsed(fileSystems + Readings(flag, ls), FlagOf(flag, ls))
    decreases |ls|
  {
    if ls == [] {
      assert fileSystems + [] == fileSystems;
    } else {
      var l, rest := ls[0], ls[1..];
      var first, flag' := ReadAs(flag, l), FlagAfter(flag, l);
      FirstThenRest(Parsed(fileSystems, flag), l, AllLines(rest));
      LayoutsRead(fileSystems + first, flag', rest);
      Regroup(fileSystems, first, Readings(flag', rest));
    }
  }

  lemma Regroup(a: seq<FileSystem>, b: seq<FileSystem>, c: seq<FileSystem>)
    ensures a + b + c == a + (b + c)
  {}

  lemma {:induction false} PrintedOnOneLine(fields: seq<string>, pads: seq<string>)
    requires Padded(fields, pads)
    ensures '\n' !in PrintFields(fields, pads)
  {
    if fields == [] {
    } else {
      PrintedOnOneLine(fields[1..], pads[1..]);
      assert IsSpace('\n');
    }
  }

  lemma {:induction false} LinesHaveNoBreak(ls: seq<Layout>)
    requires AllProper(ls)
    ensures forall k :: 0 <= k < |AllLines(ls)| ==> '\n' !in AllLines(ls)[k]
  {
    if ls == [] {
    } else {
      LinesHaveNoBreak(ls[1..]);
      var l := ls[0];
      match l
      case Whole(r, pads) => PrintedOnOneLine(RowFields(r), pads);
      case Wrapped(r, pads, indents) =>
        PrintedOnOneLine([r.device], pads);
        PrintedOnOneLine(Numbers(r), indents);
    }
  }

  /** The command's output: a header, the rows, and a line break at the end. */
  function Output(header: string, ls: seq<Layout>): string
    requires AllProper(ls)
  {
    Join([header] + AllLines(ls) + [""], "\n")
  }

  /** The header line: it has seven fields, so it is none of the lines that the parser acts on. */
  predicate IsHeader(s: string) {
    '\n' !in s && |Fields(s)| == 7
  }

  /** What is read from every output: one reading for each row, which depends on the rows before it through
      the flag alone. */
  lemma OutputReadings(header: string, ls: seq<Layout>)
    requires IsHeader(header) && AllProper(ls)
    ensures ParseLines(Parsed([], 0), Split(Output(header, ls), '\n')).fileSystems == Readings(0, ls)
  {
    var start := Parsed([], 0);
    var lines := [header] + AllLines(ls) + [""];
    LinesHaveNoBreak(ls);
    SplitJoin(lines, '\n');
    ParseConcat(start, [header] + AllLines(ls), [""]);
    ParseConcat(start, [header], AllLines(ls));
    assert [header][..0] == [] && [""][..0] == [];
    assert ParseLines(start, [header]) == start;
    LayoutsRead([], 0, ls);
    assert [] + Readings(0, ls) == Readings(0, ls);
  }

  // ---------- when the rows are read as what they mean ----------

  predicate Readable(r: Row) {
    ParseUint(r.used).Some? && ParseUint(r.available).Some?
  }

  /** With the flag lowered only a readable device row whose mount point holds a space is not listed. With the
      flag raised there are two more ways to go wrong: a whole device row is read one field early, and a
      wrapped row that is not a device's is listed. */
  predicate Harmless(flag: nat, l: Layout) {
    if Spaced(l.row) then !IsDev(l.row.device) || !Readable(l.row)
    else if flag == 0 then true
    else if l.Whole? then !IsDev(l.row.device) || Early(l.row) == Meaning(l.row)
    else IsDev(l.row.device) || !Readable(l.row)
  }

  lemma HarmlessExactly(flag: nat, l: Layout)
    requires flag <= 1
    ensures ReadAs(flag, l) == Meaning(l.row) <==> Harmless(flag, l)
  {}

  predicate AllHarmless(flag: nat, ls: seq<Layout>)
    requires flag <= 1
    decreases |ls|
  {
    ls == [] || (Harmless(flag, ls[0]) && AllHarmless(FlagAfter(flag, ls[0]), ls[1..]))
  }

  /** The reading was right after each of the rows. */
  ghost predicate RightThroughout(flag: nat, ls: seq<Layout>)
    requires flag <= 1
  {
    forall n :: 0 <= n <= |ls| ==> Right(flag, ls, n)
  }

  predicate Right(flag: nat, ls: seq<Layout>, n: nat)
    requires flag <= 1 && n <= |ls|
  {
    Readings(flag, ls[..n]) == Meanings(ls[..n])
  }

  lemma RightCons(flag: nat, ls: seq<Layout>, n: nat)
    requires flag <= 1 && n < |ls| && ReadAs(flag, ls[0]) == Meaning(ls[0].row)
    ensures Right(flag, ls, n + 1) <==> Right(FlagAfter(flag, ls[0]), ls[1..], n)
  {
    assert ls[..n + 1][1..] == ls[1..][..n];
    SameAfter(Meaning(ls[0].row), Readings(FlagAfter(flag, ls[0]), ls[1..][..n]), Meanings(ls[1..][..n]));
  }

  lemma RightFirst(flag: nat, ls: seq<Layout>)
    requires flag <= 1 && ls != []
    ensures Right(flag, ls, 1) <==> ReadAs(flag, ls[0]) == Meaning(ls[0].row)
  {
    var one := [ls[0]];
    assert ls[..1] == one && one[1..] == [];
    assert Readings(flag, one) == ReadAs(flag, ls[0]) + [] == ReadAs(flag, ls[0]);
    assert Meanings(one) == Meaning(ls[0].row) + [] == Meaning(ls[0].row);
  }

  /** Every beginning of the rows is read as what it means exactly when each row is harmless where it stands. */
  lemma {:induction false} ReadRightExactly(flag: nat, ls: seq<Layout>)
    requires flag <= 1
    ensures RightThroughout(flag, ls) <==> AllHarmless(flag, ls)
    decreases |ls|
  {
    if ls == [] {
      assert Right(flag, ls, 0);
    } else {
      var flag', rest := FlagAfter(flag, ls[0]), ls[1..];
      HarmlessExactly(flag, ls[0]);
      RightFirst(flag, ls);
      ReadRightExactly(flag', rest);
      if Harmless(flag, ls[0]) {
        forall n | 0 <= n <= |rest| ensures Right(flag, ls, n + 1) <==> Right(flag', rest, n) {
          RightCons(flag, ls, n);
        }
        RightShift(flag, ls);
      }
    }
  }

  lemma RightShift(flag: nat, ls: seq<Layout>)
    requires flag <= 1 && ls != []
    requires forall n :: 0 <= n <= |ls| - 1 ==>
               (Right(flag, ls, n + 1) <==> Right(FlagAfter(flag, ls[0]), ls[1..], n))
    ensures RightThroughout(flag, ls) <==> RightThroughout(FlagAfter(flag, ls[0]), ls[1..])
  {
    assert Right(flag, ls, 0);
    if RightThroughout(FlagAfter(flag, ls[0]), ls[1..]) {
      forall m | 1 <= m <= |ls| ensures Right(flag, ls, m) {
        assert Right(FlagAfter(flag, ls[0]), ls[1..], m - 1);
      }
    }
    if RightThroughout(flag, ls) {
      forall n | 0 <= n <= |ls| - 1 ensures Right(FlagAfter(flag, ls[0]), ls[1..], n) {
        assert Right(flag, ls, n + 1);
      }
    }
  }

  predicate NoneSpaced(ls: seq<Layout>) {
    forall l :: l in ls ==> !Spaced(l.row)
  }

  lemma {:induction false} UnspacedRight(ls: seq<Layout>)
    requires NoneSpaced(ls)
    ensures FlagOf(0, ls) == 0 && Readings(0, ls) == Meanings(ls)
  {
    if ls == [] {
    } else {
      HarmlessExactly(0, ls[0]);
      UnspacedRight(ls[1..]);
    }
  }

  /** Without spaces in mount points every list of rows is read in order as what its rows mean, however each of
      them is padded and whether or not it is wrapped. */
  lemma OutputRead(header: string, ls: seq<Layout>)
    requires IsHeader(header) && AllProper(ls) && NoneSpaced(ls)
    ensures ParseLines(Parsed([], 0), Split(Output(header, ls), '\n')).fileSystems == Meanings(ls)
  {
    OutputReadings(header, ls);
    UnspacedRight(ls);
  }

  function Rows(ls: seq<Layout>): seq<Row> {
    seq(|ls|, i requires 0 <= i < |ls| => ls[i].row)
  }

  lemma {:induction false} MeaningsOfRows(ls: seq<Layout>, ms: seq<Layout>)
    requires Rows(ls) == Rows(ms)
    ensures Meanings(ls) == Meanings(ms)
  {
    assert |ls| == |Rows(ls)| == |ms|;
    if ls == [] {
    } else {
      assert ls[0].row == Rows(ls)[0] == Rows(ms)[0] == ms[0].row;
      assert Rows(ls[1..]) == Rows(ls)[1..] && Rows(ms[1..]) == Rows(ms)[1..];
      MeaningsOfRows(ls[1..], ms[1..]);
    }
  }

  /** Unwrapping: two outputs with the same rows read the same. */
  lemma WrappingDoesNotMatter(header: string, ls: seq<Layout>, ms: seq<Layout>)
    requires IsHeader(header) && AllProper(ls) && AllProper(ms)
    requires Rows(ls) == Rows(ms) && NoneSpaced(ls)
    ensures ParseLines(Parsed([], 0), Split(Output(header, ls), '\n')).fileSystems
         == ParseLines(Parsed([], 0), Split(Output(header, ms), '\n')).fileSystems
  {
    forall l | l in ms ensures !Spaced(l.row) {
      var i :| 0 <= i < |ms| && ms[i] == l;
      assert Rows(ls)[i] == Rows(ms)[i] == l.row && ls[i] in ls;
    }
    OutputRead(header, ls);
    OutputRead(header, ms);
    MeaningsOfRows(ls, ms);
  }

  // ---------- when the list read is right ----------

  /** A device row whose mount point holds a space. */
  predicate SpacedDevice(r: Row) {
    IsDev(r.device) && Spaced(r)
  }

  predicate NoSpacedDevice(ls: seq<Layout>) {
    forall l :: l in ls ==> !SpacedDevice(l.row)
  }

  predicate NoBlank(fileSystems: seq<FileSystem>) {
    forall fs :: fs in fileSystems ==> ' ' !in fs.mountPoint
  }

  /** Nothing that is read holds a blank in its mount point. */
  lemma ReadAsNoBlank(flag: nat, l: Layout)
    requires flag <= 1 && Proper(l)
    ensures NoBlank(ReadAs(flag, l))
  {
    OneWord(l.row);
    if !Spaced(l.row) {
      assert IsField(l.row.mount[0]) && IsField(l.row.percent) && IsSpace(' ');
    }
  }

  lemma {:induction false} ReadingsNoBlank(flag: nat, ls: seq<Layout>)
    requires flag <= 1 && AllProper(ls)
    ensures NoBlank(Readings(flag, ls))
    decreases |ls|
  {
    if ls == [] {
    } else {
      ReadAsNoBlank(flag, ls[0]);
      ReadingsNoBlank(FlagAfter(flag, ls[0]), ls[1..]);
    }
  }

  /** A readable device row with such a mount point means a file system whose mount point holds a blank. */
  lemma {:induction false} MeaningsBlank(ls: seq<Layout>, l: Layout)
    requires l in ls && SpacedDevice(l.row) && Readable(l.row)
    ensures !NoBlank(Meanings(ls))
  {
    if ls[0] == l {
      var fs := Meaning(l.row)[0];
      assert fs.mountPoint[|l.row.mount[0]|] == ' ';
      assert fs in Meanings(ls);
    } else {
      MeaningsBlank(ls[1..], l);
      var fs :| fs in Meanings(ls[1..]) && ' ' in fs.mountPoint;
      assert fs in Meanings(ls);
    }
  }

  lemma {:induction false} UndisturbedRight(ls: seq<Layout>)
    requires NoSpacedDevice(ls)
    ensures Readings(0, ls) == Meanings(ls)
  {
    if ls == [] {
    } else {
      HarmlessExactly(0, ls[0]);
      UndisturbedRight(ls[1..]);
    }
  }

  /** The list that is returned is right exactly when no device is mounted at a point whose name holds a space, as
      far as the numbers of such rows can be read. */
  lemma OutputExactly(header: string, ls: seq<Layout>)
    requires IsHeader(header) && AllProper(ls)
    requires forall l :: l in ls && SpacedDevice(l.row) ==> Readable(l.row)
    ensures ParseLines(Parsed([], 0), Split(Output(header, ls), '\n')).fileSystems == Meanings(ls)
            <==> NoSpacedDevice(ls)
  {
    OutputReadings(header, ls);
    if NoSpacedDevice(ls) {
      UndisturbedRight(ls);
    } else {
      var l :| l in ls && SpacedDevice(l.row);
      MeaningsBlank(ls, l);
      ReadingsNoBlank(0, ls);
    }
  }

  /** One readable row of that kind spoils the list, whatever the others are. */
  lemma SpacedDeviceSpoils(header: string, ls: seq<Layout>, l: Layout)
    requires IsHeader(header) && AllProper(ls) && l in ls && SpacedDevice(l.row) && Readable(l.row)
    ensures ParseLines(Parsed([], 0), Split(Output(header, ls), '\n')).fileSystems != Meanings(ls)
  {
    OutputReadings(header, ls);
    MeaningsBlank(ls, l);
    ReadingsNoBlank(0, ls);
  }

  // ---------- a device line without its second line ----------

  lemma OrphanRaisesFlag(p: Parsed, device: string, pads: seq<string>)
    requires p.flag <= 1 && IsDev(device) && Padded([device], pads)
    ensures ParseLines(p, [PrintFields([device], pads)]) == p.(flag := 1)
  {
    FieldsPrinted([device], pads);
    assert [PrintFields([device], pads)][..0] == [];
  }

  /** After such a line a row is read as what it means exactly when it is harmless under the raised flag. */
  lemma OrphanExactly(device: string, pads: seq<string>, l: Layout)
    requires IsDev(device) && Padded([device], pads) && Proper(l)
    ensures ParseLines(Parsed([], 0), [PrintFields([device], pads)] + Lines(l)).fileSystems == Meaning(l.row)
            <==> Harmless(1, l)
  {
    var orphan := [PrintFields([device], pads)];
    OrphanRaisesFlag(Parsed([], 0), device, pads);
    ParseConcat(Parsed([], 0), orphan, Lines(l));
    LayoutRead(Parsed([], 1), l);
    HarmlessExactly(1, l);
  }

  /** A whole device row is then read one field early, ... */
  lemma OrphanShiftsNextRow(device: string, pads: seq<string>, l: Layout)
    requires IsDev(device) && Padded([device], pads) && l.Whole? && Proper(l) && IsDev(l.row.device) && !Spaced(l.row)
    ensures ParseLines(Parsed([], 0), [PrintFields([device], pads)] + Lines(l)).fileSystems == Early(l.row)
  {
    OrphanRaisesFlag(Parsed([], 0), device, pads);
    ParseConcat(Parsed([], 0), [PrintFields([device], pads)], Lines(l));
    LayoutRead(Parsed([], 1), l);
  }

  /** ... and a wrapped row that is not a device's is listed. */
  lemma OrphanListsNextRow(device: string, pads: seq<string>, l: Layout)
    requires IsDev(device) && Padded([device], pads) && l.Wrapped? && Proper(l) && !Spaced(l.row)
    requires Readable(l.row)
    ensures ParseLines(Parsed([], 0), [PrintFields([device], pads)] + Lines(l)).fileSystems
         == [FileSystem(l.row.mount[0], ParseUint(l.row.used).value, ParseUint(l.row.available).value)]
  {
    OrphanRaisesFlag(Parsed([], 0), device, pads);
    ParseConcat(Parsed([], 0), [PrintFields([device], pads)], Lines(l));
    LayoutRead(Parsed([], 1), l);
    OneWord(l.row);
  }

  /** The first row that lowers the flag again. */
  predicate Lowers(l: Layout) {
    !Spaced(l.row) && (l.Wrapped? || IsDev(l.row.device))
  }

  /** Only the first row that lowers the flag can be hurt. */
  predicate FirstHarmless(ls: seq<Layout>) {
    ls == [] || if Lowers(ls[0]) then Harmless(1, ls[0]) else FirstHarmless(ls[1..])
  }

  /** A list of rows after such a line is read as what it means exactly when that row is harmless. */
  lemma OrphanListExactly(device: string, pads: seq<string>, ls: seq<Layout>)
    requires IsDev(device) && Padded([device], pads) && NoneSpaced(ls) && AllProper(ls)
    ensures ParseLines(Parsed([], 0), [PrintFields([device], pads)] + AllLines(ls)).fileSystems == Meanings(ls)
            <==> FirstHarmless(ls)
  {
    var orphan := [PrintFields([device], pads)];
    OrphanRaisesFlag(Parsed([], 0), device, pads);
    ParseConcat(Parsed([], 0), orphan, AllLines(ls));
    LayoutsRead([], 1, ls);
    assert [] + Readings(1, ls) == Readings(1, ls);
    RaisedExactly(ls);
  }

  lemma {:induction false} RaisedExactly(ls: seq<Layout>)
    requires NoneSpaced(ls)
    ensures Readings(1, ls) == Meanings(ls) <==> FirstHarmless(ls)
    decreases |ls|
  {
    if ls == [] {
    } else {
      var l, rest := ls[0], ls[1..];
      if Lowers(l) {
        UnspacedRight(rest);
        HarmlessExactly(1, l);
        SameBefore(ReadAs(1, l), Meaning(l.row), Meanings(rest));
      } else {
        RaisedExactly(rest);
        assert [] + Readings(1, rest) == Readings(1, rest) && [] + Meanings(rest) == Meanings(rest);
      }
    }
  }

  lemma SameBefore(x: seq<FileSystem>, y: seq<FileSystem>, b: seq<FileSystem>)
    ensures x + b == y + b <==> x == y
  {
    if x + b == y + b {
      assert |x| == |y|;
      assert (x + b)[..|x|] == x && (y + b)[..|y|] == y;
    }
  }

  /** Where such lines come from: a wrapped device row whose mount point holds a space. Its second line is not
      taken, so it is not listed itself and leaves the flag raised for the rows after it. */
  lemma SpacedMountExactly(header: string, l: Layout, next: Layout)
    requires IsHeader(header) && Proper(l) && l.Wrapped? && IsDev(l.row.device) && Spaced(l.row) && Proper(next)
    ensures ParseLines(Parsed([], 0), Split(Output(header, [l, next]), '\n')).fileSystems == ReadAs(1, next)
    ensures ReadAs(1, next) == Meaning(next.row) <==> Harmless(1, next)
  {
    OutputReadings(header, [l, next]);
    var one := [next];
    assert [l, next][1..] == one && one[1..] == [];
    assert Readings(1, one) == ReadAs(1, next) + [] == ReadAs(1, next);
    assert Readings(0, [l, next]) == [] + Readings(1, one) == Readings(1, one);
    HarmlessExactly(1, next);
  }
}
