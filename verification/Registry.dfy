/**
 The environment-registry parser: a line-oriented subset of YAML with one `surfaces:` block.  A line
 arrives as its indentation and the shape of its stripped text.  The nine allowlisted row fields and
 the tolerated extension keys are told apart only by their key, because the parser treats them alike:
 it consumes `staging_instance` and `staging` and drops every other value.
 */
module Registry {
  import opened Common

  /** A scalar that parsed, or one the scalar grammar rejects. */
  datatype Scalar = Text(text: string) | Bad

  datatype Shape =
    | Blank
    | Comment
    | SurfacesKey                             // exactly `surfaces:`
    | Starter(name: Scalar)                   // `- surface: NAME`
    | KeyValue(key: string, value: Scalar)    // `key: value`
    | Strange(keyLike: bool)                  // anything else; keyLike when it matches the indent-0 key pattern

  datatype Line = Line(indent: nat, tab: bool, shape: Shape)

  datatype Row = Row(surface: string, stagingInstance: Option<string>, staging: Option<string>)

  datatype Entry = Entry(surface: string, staging: string)

  /** Folding of surface names (strip and casefold) and blankness of a string. */
  datatype Rules = Rules(fold: string -> string, blank: string -> bool)

  const STAGING_INSTANCE: string := "staging_instance"
  const STAGING: string := "staging"

  datatype Parser = Parser(ever: bool, inside: bool, rows: seq<Row>, current: Option<Row>,
                           seen: set<string>, fieldIndent: Option<nat>, rowIndent: Option<nat>)

  const START: Parser := Parser(false, false, [], None, {}, None, None)

  predicate Neutral(l: Line) { l.shape.Blank? || l.shape.Comment? }

  predicate Opener(l: Line) { l.indent == 0 && l.shape.SurfacesKey? }

  predicate KeyLike(s: Shape) { s.KeyValue? || (s.Strange? && s.keyLike) }

  function Flushed(p: Parser): seq<Row> {
    if p.current.Some? then p.rows + [p.current.value] else p.rows
  }

  function StepStarter(p: Parser, l: Line): Result<Parser>
    requires l.shape.Starter?
  {
    if p.rowIndent.Some? && p.rowIndent.value != l.indent then Err
    else if l.shape.name.Bad? then Err
    else Ok(p.(rowIndent := Some(l.indent), rows := Flushed(p), current := Some(Row(l.shape.name.text, None, None)),
               seen := {"surface"}, fieldIndent := None))
  }

  function Store(r: Row, key: string, value: string): Row {
    if key == STAGING_INSTANCE then r.(stagingInstance := Some(value))
    else if key == STAGING then r.(staging := Some(value))
    else r
  }

  function StepField(p: Parser, l: Line): Result<Parser>
    requires l.shape.KeyValue?
  {
    var key := l.shape.key;
    if p.current.None? then Err
    else if p.fieldIndent.Some? && p.fieldIndent.value != l.indent then Err
    else if key in p.seen then Err
    else if key == STAGING_INSTANCE || key == STAGING then
      if l.shape.value.Bad? then Err
      else Ok(p.(fieldIndent := Some(l.indent), seen := p.seen + {key},
                 current := Some(Store(p.current.value, key, l.shape.value.text))))
    else Ok(p.(fieldIndent := Some(l.indent), seen := p.seen + {key}))
  }

  function Step(p: Parser, l: Line): Result<Parser> {
    if Neutral(l) then Ok(p)
    else if !p.inside then
      if Opener(l) then if p.ever then Err else Ok(p.(ever := true, inside := true)) else Ok(p)
    else if l.indent == 0 then
      if KeyLike(l.shape) then Ok(p.(rows := Flushed(p), current := None, inside := false)) else Err
    else if l.tab then Err
    else match l.shape
      case Starter(_) => StepStarter(p, l)
      case KeyValue(_, _) => StepField(p, l)
      case _ => Err
  }

  function Run(lines: seq<Line>): Result<Parser> {
    if lines == [] then Ok(START)
    else
      var r := Run(lines[..|lines| - 1]);
      if r.Err? then Err else Step(r.value, lines[|lines| - 1])
  }

  /** The value a row contributes: staging_instance if present, else staging. */
  function StagingOf(r: Row): Option<string> {
    if r.stagingInstance.Some? then r.stagingInstance else r.staging
  }

  predicate RowOk(u: Rules, r: Row) {
    && !u.blank(r.surface)
    && StagingOf(r).Some? && !u.blank(StagingOf(r).value)
    && !(r.stagingInstance.Some? && r.staging.Some?)
  }

  predicate RowsOk(u: Rules, rows: seq<Row>) {
    && rows != []
    && (forall r | r in rows :: RowOk(u, r))
    && (forall x, y | 0 <= x < y < |rows| :: u.fold(rows[x].surface) != u.fold(rows[y].surface))
  }

  function Entries(rows: seq<Row>): seq<Entry>
    requires forall r | r in rows :: StagingOf(r).Some?
  {
    seq(|rows|, i requires 0 <= i < |rows| => Entry(rows[i].surface, StagingOf(rows[i]).value))
  }

  function Normalize(u: Rules, rows: seq<Row>): Result<seq<Entry>> {
    if RowsOk(u, rows) then Ok(Entries(rows)) else Err
  }

  function Parse(u: Rules, lines: seq<Line>): Result<seq<Entry>> {
    var r := Run(lines);
    if r.Err? || !r.value.ever then Err else Normalize(u, Flushed(r.value))
  }

  // ---------------------------------------------------------------- neutral lines

  function Essence(lines: seq<Line>): seq<Line> {
    if lines == [] then []
    else
      Essence(lines[..|lines| - 1]) + (if Neutral(lines[|lines| - 1]) then [] else [lines[|lines| - 1]])
  }

  lemma {:induction false} RunIgnoresNeutral(lines: seq<Line>)
    ensures Run(lines) == Run(Essence(lines))
  {
    if lines != [] {
      var n := |lines| - 1;
      RunIgnoresNeutral(lines[..n]);
      var e := Essence(lines[..n]);
      if Neutral(lines[n]) {
        assert Essence(lines) == e;
      } else {
        assert Essence(lines)[..|e|] == e;
      }
    }
  }

  /** Adding or removing blank and comment lines anywhere changes neither acceptance nor result. */
  lemma {:induction false} NeutralLinesDoNotMatter(u: Rules, a: seq<Line>, b: seq<Line>)
    requires Essence(a) == Essence(b)
    ensures Parse(u, a) == Parse(u, b)
  {
    RunIgnoresNeutral(a);
    RunIgnoresNeutral(b);
  }

  // ---------------------------------------------------------------- printers

  /** A row as text: its name and any fields, consumed or not, in any order. */
  datatype Printed = Printed(name: string, fields: seq<(string, string)>)

  function Render(rows: seq<Printed>, rowIndent: nat, fieldIndent: nat): seq<Line> {
    if rows == [] then [Line(0, false, SurfacesKey)]
    else
      RenderFields(Render(rows[..|rows| - 1], rowIndent, fieldIndent)
                   + [Line(rowIndent, false, Starter(Text(rows[|rows| - 1].name)))],
                   rows[|rows| - 1].fields, fieldIndent)
  }

  function RenderFields(before: seq<Line>, fields: seq<(string, string)>, fieldIndent: nat): seq<Line> {
    if fields == [] then before
    else
      var f := fields[|fields| - 1];
      RenderFields(before, fields[..|fields| - 1], fieldIndent) + [Line(fieldIndent, false, KeyValue(f.0, Text(f.1)))]
  }

  predicate FieldsFine(fields: seq<(string, string)>) {
    && (forall x | 0 <= x < |fields| :: fields[x].0 != "surface")
    && (forall x, y | 0 <= x < y < |fields| :: fields[x].0 != fields[y].0)
  }

  /** The row these fields describe. */
  function RowFrom(name: string, fields: seq<(string, string)>): Row {
    if fields == [] then Row(name, None, None)
    else
      var f := fields[|fields| - 1];
      Store(RowFrom(name, fields[..|fields| - 1]), f.0, f.1)
  }

  /** Each consumed field of the row is the value printed under that very key. */
  lemma {:induction false} RowFromHolds(name: string, fields: seq<(string, string)>, x: nat)
    requires FieldsFine(fields) && x < |fields|
    ensures fields[x].0 == STAGING_INSTANCE ==> RowFrom(name, fields).stagingInstance == Some(fields[x].1)
    ensures fields[x].0 == STAGING ==> RowFrom(name, fields).staging == Some(fields[x].1)
  {
    var n := |fields| - 1;
    assert STAGING_INSTANCE != STAGING by { assert |STAGING_INSTANCE| != |STAGING|; }
    if x < n { RowFromHolds(name, fields[..n], x); }
  }

  lemma {:induction false} RunSnoc(lines: seq<Line>, l: Line)
    ensures Run(lines + [l]) == if Run(lines).Err? then Err else Step(Run(lines).value, l)
  {
  }

  /** The parser in the middle of a row: which of its fields it has seen. */
  predicate InRow(p: Parser, rows: seq<Row>, name: string, fields: seq<(string, string)>, ri: nat, fi: nat) {
    && p.ever && p.inside && p.rows == rows && p.rowIndent == Some(ri)
    && p.current == Some(RowFrom(name, fields))
    && p.seen == {"surface"} + (set x | 0 <= x < |fields| :: fields[x].0)
    && p.fieldIndent == (if fields == [] then None else Some(fi))
  }

  lemma {:induction false} RunFields(before: seq<Line>, rows: seq<Row>, name: string, fields: seq<(string, string)>,
                                     ri: nat, fi: nat)
    requires fi > 0 && FieldsFine(fields)
    requires Run(before).Ok? && InRow(Run(before).value, rows, name, [], ri, fi)
    ensures
      var r := Run(RenderFields(before, fields, fi));
      r.Ok? && InRow(r.value, rows, name, fields, ri, fi)
    decreases |fields|
  {
    if fields != [] {
      var n := |fields| - 1;
      var f := fields[n];
      RunFields(before, rows, name, fields[..n], ri, fi);
      var lines := RenderFields(before, fields[..n], fi);
      RunSnoc(lines, Line(fi, false, KeyValue(f.0, Text(f.1))));
      StepInRow(Run(lines).value, rows, name, fields, ri, fi);
    }
  }

  lemma StepInRow(p: Parser, rows: seq<Row>, name: string, fields: seq<(string, string)>, ri: nat, fi: nat)
    requires fi > 0 && FieldsFine(fields) && fields != []
    requires InRow(p, rows, name, fields[..|fields| - 1], ri, fi)
    ensures
      var f := fields[|fields| - 1];
      var r := Step(p, Line(fi, false, KeyValue(f.0, Text(f.1))));
      r.Ok? && InRow(r.value, rows, name, fields, ri, fi)
  {
    var n := |fields| - 1;
    var rest := fields[..n];
    var keys := set x | 0 <= x < |fields| :: fields[x].0;
    assert keys == (set x | 0 <= x < |rest| :: rest[x].0) + {fields[n].0} by {
      assert forall x | 0 <= x < n :: rest[x] == fields[x];
      assert forall k | k in keys :: exists x | 0 <= x < |fields| :: fields[x].0 == k;
      forall k ensures k in keys <==> k in (set x | 0 <= x < |rest| :: rest[x].0) || k == fields[n].0 {
        if k in keys {
          var x :| 0 <= x < |fields| && fields[x].0 == k;
          assert x < n ==> rest[x].0 == k;
        }
        if k in (set x | 0 <= x < |rest| :: rest[x].0) {
          var x :| 0 <= x < |rest| && rest[x].0 == k;
          assert fields[x].0 == k;
        }
      }
    }
    assert fields[n].0 !in p.seen;
  }

  function RowsOf(printed: seq<Printed>): (rows: seq<Row>)
    ensures |rows| == |printed|
    ensures forall i | 0 <= i < |rows| :: rows[i] == RowFrom(printed[i].name, printed[i].fields)
  {
    seq(|printed|, i requires 0 <= i < |printed| => RowFrom(printed[i].name, printed[i].fields))
  }

  /** The parser between two rows of a printed text. */
  predicate Rendered(r: Result<Parser>, rows: seq<Row>, ri: nat) {
    && r.Ok? && r.value.ever && r.value.inside && Flushed(r.value) == rows
    && (r.value.rowIndent.Some? ==> r.value.rowIndent.value == ri)
  }

  lemma {:induction false} RowAppended(before: seq<Line>, rows: seq<Row>, row: Printed, ri: nat, fi: nat)
    requires ri > 0 && fi > 0 && FieldsFine(row.fields) && Rendered(Run(before), rows, ri)
    ensures
      var lines := RenderFields(before + [Line(ri, false, Starter(Text(row.name)))], row.fields, fi);
      Rendered(Run(lines), rows + [RowFrom(row.name, row.fields)], ri)
  {
    var starter := Line(ri, false, Starter(Text(row.name)));
    RunSnoc(before, starter);
    RunFields(before + [starter], rows, row.name, row.fields, ri, fi);
  }

  lemma RowsOfSnoc(printed: seq<Printed>, n: nat)
    requires |printed| == n + 1
    ensures RowsOf(printed) == RowsOf(printed[..n]) + [RowFrom(printed[n].name, printed[n].fields)]
  {
  }

  lemma RunOpener()
    ensures Rendered(Run([Line(0, false, SurfacesKey)]), [], 0)
  {
    RunSnoc([], Line(0, false, SurfacesKey));
    assert [] + [Line(0, false, SurfacesKey)] == [Line(0, false, SurfacesKey)];
  }

  lemma {:induction false} RunRender(printed: seq<Printed>, ri: nat, fi: nat)
    requires ri > 0 && fi > 0 && forall p | p in printed :: FieldsFine(p.fields)
    ensures Rendered(Run(Render(printed, ri, fi)), RowsOf(printed), ri)
    decreases |printed|
  {
    if printed == [] {
      RunOpener();
    } else {
      var n := |printed| - 1;
      assert printed[n] in printed;
      RunRender(printed[..n], ri, fi);
      RowAppended(Render(printed[..n], ri, fi), RowsOf(printed[..n]), printed[n], ri, fi);
      RowsOfSnoc(printed, n);
    }
  }

  /** A printed text parses to what its rows say, whatever further fields they carry and in whatever order. */
  lemma {:induction false} ParsesPrinted(u: Rules, printed: seq<Printed>, ri: nat, fi: nat)
    requires ri > 0 && fi > 0 && forall p | p in printed :: FieldsFine(p.fields)
    ensures Parse(u, Render(printed, ri, fi)) == Normalize(u, RowsOf(printed))
  {
    RunRender(printed, ri, fi);
  }

  /** The canonical printing of a list of entries. */
  function Canonical(entries: seq<Entry>): (r: seq<Printed>)
    ensures |r| == |entries|
    ensures forall i | 0 <= i < |r| :: r[i] == Printed(entries[i].surface, [(STAGING_INSTANCE, entries[i].staging)])
  {
    seq(|entries|, i requires 0 <= i < |entries| =>
      Printed(entries[i].surface, [(STAGING_INSTANCE, entries[i].staging)]))
  }

  lemma CanonicalRows(entries: seq<Entry>)
    ensures forall p | p in Canonical(entries) :: FieldsFine(p.fields)
    ensures
      var rows := RowsOf(Canonical(entries));
      forall i | 0 <= i < |rows| :: rows[i] == Row(entries[i].surface, Some(entries[i].staging), None)
  {
    assert STAGING_INSTANCE != "surface" by { assert |STAGING_INSTANCE| != |"surface"|; }
    forall i | 0 <= i < |entries|
      ensures RowsOf(Canonical(entries))[i] == Row(entries[i].surface, Some(entries[i].staging), None)
    {
      var f := [(STAGING_INSTANCE, entries[i].staging)];
      assert f[..0] == [];
      assert RowFrom(entries[i].surface, f) == Store(RowFrom(entries[i].surface, f[..0]), f[0].0, f[0].1);
    }
  }

  predicate Printable(u: Rules, entries: seq<Entry>) {
    && entries != []
    && (forall e | e in entries :: !u.blank(e.surface) && !u.blank(e.staging))
    && (forall x, y | 0 <= x < y < |entries| :: u.fold(entries[x].surface) != u.fold(entries[y].surface))
  }

  lemma CanonicalRow(u: Rules, entries: seq<Entry>, i: nat)
    requires i < |entries|
    ensures
      var rows := RowsOf(Canonical(entries));
      && rows[i].surface == entries[i].surface && StagingOf(rows[i]) == Some(entries[i].staging)
      && (RowOk(u, rows[i]) <==> !u.blank(entries[i].surface) && !u.blank(entries[i].staging))
  {
    CanonicalRows(entries);
  }

  lemma PrintableRows(u: Rules, entries: seq<Entry>)
    ensures RowsOk(u, RowsOf(Canonical(entries))) <==> Printable(u, entries)
  {
    var rows := RowsOf(Canonical(entries));
    forall i | 0 <= i < |entries|
      ensures
        && rows[i] in rows && entries[i] in entries && rows[i].surface == entries[i].surface
        && (RowOk(u, rows[i]) <==> !u.blank(entries[i].surface) && !u.blank(entries[i].staging))
    {
      CanonicalRow(u, entries, i);
    }
    if Printable(u, entries) {
      forall r | r in rows ensures RowOk(u, r) { var i :| 0 <= i < |rows| && rows[i] == r; }
    }
    if RowsOk(u, rows) {
      forall e | e in entries ensures !u.blank(e.surface) && !u.blank(e.staging) {
        var i :| 0 <= i < |entries| && entries[i] == e;
        assert RowOk(u, rows[i]);
      }
    }
  }

  /**
   The parser undoes the printer: printed entries come back exactly when there is at least one, no
   name or value is blank, and the folded surface names are pairwise distinct; otherwise the text is
   rejected.
   */
  lemma {:induction false} RoundTrip(u: Rules, entries: seq<Entry>, ri: nat, fi: nat)
    requires ri > 0 && fi > 0
    ensures Parse(u, Render(Canonical(entries), ri, fi)) == if Printable(u, entries) then Ok(entries) else Err
  {
    CanonicalRows(entries);
    ParsesPrinted(u, Canonical(entries), ri, fi);
    PrintableRows(u, entries);
    var rows := RowsOf(Canonical(entries));
    if RowsOk(u, rows) { assert Entries(rows) == entries; }
  }

  // ---------------------------------------------------------------- what acceptance means

  /** Line i lies in the block opened at line k: nothing at indent 0 but neutral lines in between. */
  predicate InBlock(lines: seq<Line>, k: int, i: int) {
    && 0 <= k < i < |lines| && Opener(lines[k])
    && forall x | k < x <= i :: Neutral(lines[x]) || lines[x].indent > 0
  }

  function Openers(lines: seq<Line>): nat {
    if lines == [] then 0
    else Openers(lines[..|lines| - 1]) + (if Opener(lines[|lines| - 1]) then 1 else 0)
  }

  predicate IsRowLine(lines: seq<Line>, i: int) {
    && 0 <= i < |lines| && lines[i].shape.Starter? && lines[i].shape.name.Text?
    && exists k | 0 <= k < i :: InBlock(lines, k, i)
  }

  /** The lines that start a row of a surfaces block, top to bottom. */
  function Starters(lines: seq<Line>, n: nat): (at: seq<nat>)
    requires n <= |lines|
    ensures forall i | 0 <= i < |at| :: at[i] < n && IsRowLine(lines, at[i])
  {
    if n == 0 then []
    else Starters(lines, n - 1) + (if IsRowLine(lines, n - 1) then [n - 1] else [])
  }

  /** After the first n lines the parser is inside exactly when some opener's block is still open there. */
  ghost predicate Tracks(lines: seq<Line>, n: nat, p: Parser)
    requires n <= |lines|
  {
    && Openers(lines[..n]) == (if p.ever then 1 else 0)
    && (p.inside ==> p.ever)
    && (p.inside <==> Open(lines, n))
    && (!p.ever ==> p.rows == [] && p.current.None?)
  }

  /** The block opened at line k is still open after the first n lines. */
  predicate OpenAt(lines: seq<Line>, k: int, n: int) {
    0 <= k < n <= |lines| && Opener(lines[k]) && forall x | k < x < n :: Neutral(lines[x]) || lines[x].indent > 0
  }

  predicate Open(lines: seq<Line>, n: int) { exists k | 0 <= k < n :: OpenAt(lines, k, n) }

  lemma OpenStep(lines: seq<Line>, k: int, n: nat)
    requires 0 <= k <= n < |lines|
    ensures OpenAt(lines, k, n + 1) <==>
            if k == n then Opener(lines[n]) else OpenAt(lines, k, n) && (Neutral(lines[n]) || lines[n].indent > 0)
    ensures k < n ==> (InBlock(lines, k, n) <==> OpenAt(lines, k, n + 1))
  {
  }

  lemma TrackStep(lines: seq<Line>, n: nat, p: Parser)
    requires n < |lines| && Tracks(lines, n, p) && Step(p, lines[n]).Ok?
    ensures Tracks(lines, n + 1, Step(p, lines[n]).value)
  {
    var l, q := lines[n], Step(p, lines[n]).value;
    assert lines[..n + 1][..n] == lines[..n];
    if p.inside {
      var k :| 0 <= k < n && OpenAt(lines, k, n);
      OpenStep(lines, k, n);
    }
    if Opener(l) { assert OpenAt(lines, n, n + 1); }
    if Open(lines, n + 1) {
      var k :| 0 <= k < n + 1 && OpenAt(lines, k, n + 1);
      OpenStep(lines, k, n);
    }
  }

  lemma {:induction false} RunTracks(lines: seq<Line>, n: nat)
    requires n <= |lines| && Run(lines[..n]).Ok?
    ensures Tracks(lines, n, Run(lines[..n]).value)
  {
    if n > 0 {
      assert lines[..n][..n - 1] == lines[..n - 1];
      RunTracks(lines, n - 1);
      TrackStep(lines, n - 1, Run(lines[..n - 1]).value);
    }
  }

  predicate IsStarter(lines: seq<Line>, i: int) { 0 <= i < |lines| && lines[i].shape.Starter? }

  predicate IsField(lines: seq<Line>, i: int) { 0 <= i < |lines| && lines[i].shape.KeyValue? }

  /** Line x ends the row above it: another starter, or anything but a neutral line at indent 0. */
  predicate EndsRow(lines: seq<Line>, x: int) {
    0 <= x < |lines| && (IsStarter(lines, x) || (!Neutral(lines[x]) && lines[x].indent == 0))
  }

  /** Line f is a field of the row that starts at line s. */
  predicate Belongs(lines: seq<Line>, s: int, f: int) {
    0 <= s < f && IsField(lines, f) && forall x | s < x <= f :: !EndsRow(lines, x)
  }

  predicate Consumed(lines: seq<Line>, f: int) {
    IsField(lines, f) && (lines[f].shape.key == STAGING_INSTANCE || lines[f].shape.key == STAGING)
  }

  /** Of the first n lines, the row's fields under this key say exactly v. */
  ghost predicate Says(lines: seq<Line>, s: int, n: int, key: string, v: Option<string>) {
    && (forall f | Belongs(lines, s, f) && f < n && lines[f].shape.key == key ::
          lines[f].shape.value.Text? && v == Some(lines[f].shape.value.text))
    && (v.Some? ==> exists f :: Belongs(lines, s, f) && f < n && lines[f].shape.key == key)
  }

  /** No two of the row's fields among the first n lines share a key. */
  ghost predicate KeysDiffer(lines: seq<Line>, s: int, n: int) {
    forall f, g | Belongs(lines, s, f) && Belongs(lines, s, g) && f < g < n :: lines[f].shape.key != lines[g].shape.key
  }

  ghost predicate RowSays(lines: seq<Line>, s: int, n: int, row: Row) {
    && IsStarter(lines, s) && lines[s].shape.name == Text(row.surface)
    && Says(lines, s, n, STAGING_INSTANCE, row.stagingInstance) && Says(lines, s, n, STAGING, row.staging)
    && KeysDiffer(lines, s, n)
  }

  predicate RowEnded(lines: seq<Line>, s: int, n: int) { exists x | s < x < n :: EndsRow(lines, x) }

  ghost predicate AllSay(lines: seq<Line>, at: seq<nat>, n: int, rows: seq<Row>) {
    |rows| == |at| && forall i | 0 <= i < |at| :: RowSays(lines, at[i], n, rows[i])
  }

  /** Every row has ended but the last one, if that is still open. */
  predicate EndedBut(lines: seq<Line>, at: seq<nat>, n: int, open: bool) {
    forall i | 0 <= i < |at| :: RowEnded(lines, at[i], n) <==> i < |at| - 1 || !open
  }

  ghost predicate KeysSeen(lines: seq<Line>, s: int, n: int, seen: set<string>) {
    forall f | Belongs(lines, s, f) && f < n :: lines[f].shape.key in seen
  }

  /** What the parser has collected from the first n lines, row by row. */
  ghost predicate Collects(lines: seq<Line>, n: nat, p: Parser)
    requires n <= |lines|
  {
    var at := Starters(lines, n);
    && AllSay(lines, at, n, Flushed(p))
    && EndedBut(lines, at, n, p.current.Some?)
    && (p.current.Some? ==> p.inside && KeysSeen(lines, at[|at| - 1], n, p.seen))
  }

  /** A row that has ended, or a line that is no field, gains nothing. */
  lemma RowUnchanged(lines: seq<Line>, s: int, n: nat, row: Row)
    requires n < |lines| && RowSays(lines, s, n, row) && !Belongs(lines, s, n)
    ensures RowSays(lines, s, n + 1, row)
  {
    forall f ensures Belongs(lines, s, f) && f < n + 1 <==> Belongs(lines, s, f) && f < n {}
    forall key, v: Option<string> | Says(lines, s, n, key, v) ensures Says(lines, s, n + 1, key, v) {
      if v.Some? { var f :| Belongs(lines, s, f) && f < n && lines[f].shape.key == key; }
    }
  }

  lemma EndedStays(lines: seq<Line>, s: int, n: nat)
    requires n < |lines| && s < n
    ensures RowEnded(lines, s, n + 1) <==> RowEnded(lines, s, n) || EndsRow(lines, n)
    ensures RowEnded(lines, s, n) ==> !Belongs(lines, s, n)
  {
  }

  lemma SaysMore(lines: seq<Line>, s: int, n: nat, key: string, v: Option<string>)
    requires n < |lines| && Belongs(lines, s, n) && Says(lines, s, n, key, v)
    requires lines[n].shape.key == key ==> lines[n].shape.value.Text?
    requires lines[n].shape.key == key ==> forall f | Belongs(lines, s, f) && f < n :: lines[f].shape.key != key
    ensures Says(lines, s, n + 1, key, if lines[n].shape.key == key then Some(lines[n].shape.value.text) else v)
  {
    if lines[n].shape.key != key && v.Some? {
      var f :| Belongs(lines, s, f) && f < n && lines[f].shape.key == key;
      assert f < n + 1;
    }
  }

  lemma RowExtended(lines: seq<Line>, s: int, n: nat, p: Parser, q: Parser)
    requires n < |lines| && Belongs(lines, s, n) && p.current.Some? && RowSays(lines, s, n, p.current.value)
    requires KeysSeen(lines, s, n, p.seen)
    requires StepField(p, lines[n]) == Ok(q)
    ensures q.current.Some? && RowSays(lines, s, n + 1, q.current.value)
    ensures KeysSeen(lines, s, n + 1, q.seen)
  {
    assert STAGING_INSTANCE != STAGING by { assert |STAGING_INSTANCE| != |STAGING|; }
    SaysMore(lines, s, n, STAGING_INSTANCE, p.current.value.stagingInstance);
    SaysMore(lines, s, n, STAGING, p.current.value.staging);
  }

  lemma AllUnchanged(lines: seq<Line>, at: seq<nat>, n: nat, rows: seq<Row>)
    requires n < |lines| && AllSay(lines, at, n, rows)
    requires forall i | 0 <= i < |at| :: !Belongs(lines, at[i], n)
    ensures AllSay(lines, at, n + 1, rows)
  {
    forall i | 0 <= i < |at| ensures RowSays(lines, at[i], n + 1, rows[i]) {
      RowUnchanged(lines, at[i], n, rows[i]);
    }
  }

  lemma EndedNext(lines: seq<Line>, at: seq<nat>, n: nat, open: bool)
    requires n < |lines| && EndedBut(lines, at, n, open) && forall i | 0 <= i < |at| :: at[i] < n
    ensures EndedBut(lines, at, n + 1, open && !EndsRow(lines, n))
  {
    forall i | 0 <= i < |at|
      ensures RowEnded(lines, at[i], n + 1) <==> i < |at| - 1 || !(open && !EndsRow(lines, n))
    {
      EndedStays(lines, at[i], n);
    }
  }

  /** A line that starts no row and is a field of none leaves what was collected as it is. */
  lemma {:induction false} CollectNothing(lines: seq<Line>, n: nat, p: Parser, q: Parser)
    requires n < |lines| && Collects(lines, n, p) && !IsRowLine(lines, n)
    requires Flushed(q) == Flushed(p)
    requires forall i | 0 <= i < |Starters(lines, n)| :: !Belongs(lines, Starters(lines, n)[i], n)
    requires q.current.Some? <==> p.current.Some? && !EndsRow(lines, n)
    requires q.current.Some? ==> q.inside && q.seen == p.seen
    ensures Collects(lines, n + 1, q)
  {
    var at := Starters(lines, n);
    assert Starters(lines, n + 1) == at;
    AllUnchanged(lines, at, n, Flushed(p));
    EndedNext(lines, at, n, p.current.Some?);
    if q.current.Some? {
      var s := at[|at| - 1];
      assert !Belongs(lines, s, n);
      forall f | Belongs(lines, s, f) && f < n + 1 ensures lines[f].shape.key in q.seen { assert f < n; }
    }
  }

  lemma CollectStarter(lines: seq<Line>, n: nat, p: Parser, q: Parser)
    requires n < |lines| && Collects(lines, n, p) && IsRowLine(lines, n) && p.inside
    requires lines[n].shape.Starter? && StepStarter(p, lines[n]) == Ok(q)
    ensures Collects(lines, n + 1, q)
  {
    var at := Starters(lines, n);
    assert Starters(lines, n + 1) == at + [n];
    assert Flushed(q) == Flushed(p) + [q.current.value];
    AllUnchanged(lines, at, n, Flushed(p));
    EndedNext(lines, at, n, p.current.Some?);
    assert RowSays(lines, n, n + 1, q.current.value);
    assert !RowEnded(lines, n, n + 1);
  }

  /** A field of the last row changes what that row says; the rows before it have ended. */
  lemma LastRowSays(lines: seq<Line>, at: seq<nat>, n: nat, rows: seq<Row>, row: Row)
    requires n < |lines| && |at| > 0 && (forall i | 0 <= i < |at| :: at[i] < n)
    requires AllSay(lines, at, n, rows) && EndedBut(lines, at, n, true)
    requires RowSays(lines, at[|at| - 1], n + 1, row)
    ensures AllSay(lines, at, n + 1, rows[|at| - 1 := row])
  {
    forall i | 0 <= i < |at| - 1 ensures RowSays(lines, at[i], n + 1, rows[i]) {
      EndedStays(lines, at[i], n);
      RowUnchanged(lines, at[i], n, rows[i]);
    }
  }

  lemma LastRowTakes(lines: seq<Line>, at: seq<nat>, n: nat)
    requires n < |lines| && |at| > 0 && at[|at| - 1] < n && EndedBut(lines, at, n, true)
    requires lines[n].shape.KeyValue? && lines[n].indent > 0
    ensures Belongs(lines, at[|at| - 1], n)
  {
    assert !RowEnded(lines, at[|at| - 1], n);
  }

  lemma CollectField(lines: seq<Line>, n: nat, p: Parser, q: Parser)
    requires n < |lines| && Collects(lines, n, p) && p.inside && lines[n].indent > 0
    requires lines[n].shape.KeyValue? && StepField(p, lines[n]) == Ok(q)
    ensures Collects(lines, n + 1, q)
  {
    var at, rows := Starters(lines, n), Flushed(p);
    var last := |at| - 1;
    assert Starters(lines, n + 1) == at;
    LastRowTakes(lines, at, n);
    RowExtended(lines, at[last], n, p, q);
    assert Flushed(q) == rows[last := q.current.value];
    LastRowSays(lines, at, n, rows, q.current.value);
    EndedNext(lines, at, n, true);
  }

  lemma RowLineExactly(lines: seq<Line>, n: nat, p: Parser)
    requires n < |lines| && Tracks(lines, n, p) && lines[n].shape.Starter? && lines[n].shape.name.Text?
    ensures IsRowLine(lines, n) <==> p.inside && lines[n].indent > 0
  {
    if p.inside && lines[n].indent > 0 {
      var k :| 0 <= k < n && OpenAt(lines, k, n);
      assert InBlock(lines, k, n);
    }
    if IsRowLine(lines, n) {
      var k :| 0 <= k < n && InBlock(lines, k, n);
      assert OpenAt(lines, k, n);
    }
  }

  lemma CollectStep(lines: seq<Line>, n: nat, p: Parser)
    requires n < |lines| && Tracks(lines, n, p) && Collects(lines, n, p) && Step(p, lines[n]).Ok?
    ensures Collects(lines, n + 1, Step(p, lines[n]).value)
  {
    var l, q := lines[n], Step(p, lines[n]).value;
    if l.shape.Starter? && p.inside && l.indent > 0 {
      RowLineExactly(lines, n, p);
      CollectStarter(lines, n, p, q);
    } else if l.shape.KeyValue? && p.inside && l.indent > 0 {
      CollectField(lines, n, p, q);
    } else {
      CollectOther(lines, n, p);
    }
  }

  lemma CollectOther(lines: seq<Line>, n: nat, p: Parser)
    requires n < |lines| && Tracks(lines, n, p) && Collects(lines, n, p) && Step(p, lines[n]).Ok?
    requires !p.inside || lines[n].indent == 0 || Neutral(lines[n])
    ensures Collects(lines, n + 1, Step(p, lines[n]).value)
  {
    var l, q, at := lines[n], Step(p, lines[n]).value, Starters(lines, n);
    if l.shape.Starter? && l.shape.name.Text? { RowLineExactly(lines, n, p); }
    forall i | 0 <= i < |at| ensures !Belongs(lines, at[i], n) { EndedStays(lines, at[i], n); }
    CollectNothing(lines, n, p, q);
  }

  lemma {:induction false} RunCollects(lines: seq<Line>, n: nat)
    requires n <= |lines| && Run(lines[..n]).Ok?
    ensures Collects(lines, n, Run(lines[..n]).value)
  {
    if n > 0 {
      assert lines[..n][..n - 1] == lines[..n - 1];
      RunCollects(lines, n - 1);
      RunTracks(lines, n - 1);
      CollectStep(lines, n - 1, Run(lines[..n - 1]).value);
    }
  }

  /** The row has one consumed field, and it holds this value. */
  ghost predicate OneValue(lines: seq<Line>, s: int, value: string) {
    && (exists f :: Belongs(lines, s, f) && Consumed(lines, f))
    && (forall f | Belongs(lines, s, f) && Consumed(lines, f) :: lines[f].shape.value == Text(value))
    && (forall f, g | Belongs(lines, s, f) && Belongs(lines, s, g) && Consumed(lines, f) && Consumed(lines, g) ::
          f == g)
  }

  lemma RowHasOneValue(u: Rules, lines: seq<Line>, s: int, row: Row)
    requires RowSays(lines, s, |lines|, row) && RowOk(u, row)
    ensures OneValue(lines, s, StagingOf(row).value)
  {
    var key := if row.stagingInstance.Some? then STAGING_INSTANCE else STAGING;
    var f :| Belongs(lines, s, f) && f < |lines| && lines[f].shape.key == key;
    assert Consumed(lines, f);
    forall g | Belongs(lines, s, g) && Consumed(lines, g)
      ensures lines[g].shape.key == key && lines[g].shape.value == Text(StagingOf(row).value) && g == f
    {
    }
  }

  lemma RowsHaveOneValue(u: Rules, lines: seq<Line>, at: seq<nat>, rows: seq<Row>)
    requires AllSay(lines, at, |lines|, rows) && RowsOk(u, rows)
    ensures forall i | 0 <= i < |rows| ::
      && StagingOf(rows[i]).Some? && lines[at[i]].shape.name == Text(rows[i].surface)
      && OneValue(lines, at[i], StagingOf(rows[i]).value)
  {
    forall i | 0 <= i < |rows|
      ensures
        && StagingOf(rows[i]).Some? && lines[at[i]].shape.name == Text(rows[i].surface)
        && OneValue(lines, at[i], StagingOf(rows[i]).value)
    {
      assert rows[i] in rows;
      RowHasOneValue(u, lines, at[i], rows[i]);
    }
  }

  /**
   Every accepted parse has a single surfaces block, and one entry per row starter of that block, in
   order: under the starter's own name, with the value of the one consumed field between that starter
   and the end of its row.  No other line of the text mints a row.
   */
  lemma {:induction false} AcceptedShape(u: Rules, lines: seq<Line>)
    requires Parse(u, lines).Ok?
    ensures Openers(lines) == 1
    ensures
      var entries, at := Parse(u, lines).value, Starters(lines, |lines|);
      && |entries| == |at|
      && forall i | 0 <= i < |entries| ::
           lines[at[i]].shape.name == Text(entries[i].surface) && OneValue(lines, at[i], entries[i].staging)
  {
    assert lines[..|lines|] == lines;
    RunTracks(lines, |lines|);
    RunCollects(lines, |lines|);
    RowsHaveOneValue(u, lines, Starters(lines, |lines|), Flushed(Run(lines).value));
  }

  // ---------------------------------------------------------------- acceptance without the loop variables

  /** Lines a < b of one block, with everything between them inside the block too. */
  predicate Between(lines: seq<Line>, k: int, a: int, n: int) {
    OpenAt(lines, k, n) && k < a < n
  }

  /** The row that is open after n lines starts at line s of the block opened at k. */
  predicate RowOpen(lines: seq<Line>, k: int, s: int, n: int) {
    && Between(lines, k, s, n) && IsStarter(lines, s)
    && forall x | s < x < n :: !IsStarter(lines, x)
  }

  /** A starter is acceptable after n lines of a block: a good name, at the indent of every earlier starter. */
  predicate StarterOk(lines: seq<Line>, k: int, n: int)
    requires 0 <= n < |lines| && lines[n].shape.Starter?
  {
    && lines[n].shape.name.Text?
    && forall s | k < s < n && IsStarter(lines, s) :: lines[s].indent == lines[n].indent
  }

  /** A field is acceptable in the row opened at s: same indent as its siblings, and a key of its own. */
  predicate FieldOk(lines: seq<Line>, s: int, n: int)
    requires 0 <= n < |lines| && lines[n].shape.KeyValue?
  {
    && lines[n].shape.key != "surface"
    && (lines[n].shape.key == STAGING_INSTANCE || lines[n].shape.key == STAGING ==> lines[n].shape.value.Text?)
    && forall f | s < f < n && IsField(lines, f) ::
         lines[f].indent == lines[n].indent && lines[f].shape.key != lines[n].shape.key
  }

  /** What the text before line n must look like for line n to be acceptable. */
  ghost predicate LineOk(lines: seq<Line>, n: int)
    requires 0 <= n < |lines|
  {
    var l := lines[n];
    if Neutral(l) then true
    else if !Open(lines, n) then Opener(l) ==> forall k | 0 <= k < n :: !Opener(lines[k])
    else if l.indent == 0 then KeyLike(l.shape)
    else
      && !l.tab
      && (l.shape.Starter? || l.shape.KeyValue?)
      && forall k | OpenAt(lines, k, n) ::
           && (l.shape.Starter? ==> StarterOk(lines, k, n))
           && (l.shape.KeyValue? ==> exists s :: RowOpen(lines, k, s, n) && FieldOk(lines, s, n))
  }

  lemma OneBlockOpen(lines: seq<Line>, j: int, k: int, n: int)
    requires OpenAt(lines, j, n) && OpenAt(lines, k, n)
    ensures j == k
  {
  }

  lemma OneRowOpen(lines: seq<Line>, k: int, s: int, t: int, n: int)
    requires RowOpen(lines, k, s, n) && RowOpen(lines, k, t, n)
    ensures s == t
  {
  }

  /** What the loop variables say about the row in progress. */
  predicate RowVars(lines: seq<Line>, s: int, n: int, seen: set<string>, fieldIndent: Option<nat>)
    requires 0 <= n <= |lines|
  {
    && "surface" in seen
    && (forall f | s < f < n && IsField(lines, f) ::
          lines[f].shape.key in seen && fieldIndent == Some(lines[f].indent))
    && (forall key | key in seen && key != "surface" ::
          exists f :: s < f < n && IsField(lines, f) && lines[f].shape.key == key)
    && (fieldIndent.Some? ==> exists f :: s < f < n && IsField(lines, f))
  }

  /** What they say about the block that is open after n lines. */
  ghost predicate BlockVars(lines: seq<Line>, k: int, n: int, p: Parser)
    requires OpenAt(lines, k, n)
  {
    && (forall s | k < s < n && IsStarter(lines, s) :: p.rowIndent == Some(lines[s].indent))
    && (p.rowIndent.Some? ==> exists s :: k < s < n && IsStarter(lines, s))
    && (p.current.Some? <==> exists s :: RowOpen(lines, k, s, n))
    && (forall s | RowOpen(lines, k, s, n) :: RowVars(lines, s, n, p.seen, p.fieldIndent))
  }

  ghost predicate Knows(lines: seq<Line>, n: nat, p: Parser)
    requires n <= |lines|
  {
    && (p.ever <==> exists k | 0 <= k < n :: Opener(lines[k]))
    && (p.inside <==> Open(lines, n))
    && (!p.ever ==> p.rowIndent.None? && p.current.None?)
    && (forall k | OpenAt(lines, k, n) :: BlockVars(lines, k, n, p))
  }

  lemma StepAgrees(lines: seq<Line>, n: nat, p: Parser)
    requires n < |lines| && Knows(lines, n, p)
    ensures Step(p, lines[n]).Ok? <==> LineOk(lines, n)
  {
    var l := lines[n];
    if !Neutral(l) && p.inside && l.indent > 0 && !l.tab {
      var k :| 0 <= k < n && OpenAt(lines, k, n);
      assert BlockVars(lines, k, n, p);
      forall j | OpenAt(lines, j, n) ensures j == k { OneBlockOpen(lines, j, k, n); }
      if l.shape.Starter? { StarterAgrees(lines, k, n, p); }
      if l.shape.KeyValue? { FieldAgrees(lines, k, n, p); }
    }
  }

  lemma StarterAgrees(lines: seq<Line>, k: int, n: nat, p: Parser)
    requires n < |lines| && lines[n].shape.Starter? && OpenAt(lines, k, n) && BlockVars(lines, k, n, p)
    ensures StepStarter(p, lines[n]).Ok? <==> StarterOk(lines, k, n)
  {
    if p.rowIndent.Some? {
      var s :| k < s < n && IsStarter(lines, s);
      assert p.rowIndent == Some(lines[s].indent);
    }
  }

  lemma FieldAgrees(lines: seq<Line>, k: int, n: nat, p: Parser)
    requires n < |lines| && lines[n].shape.KeyValue? && OpenAt(lines, k, n) && BlockVars(lines, k, n, p)
    ensures StepField(p, lines[n]).Ok? <==> exists s :: RowOpen(lines, k, s, n) && FieldOk(lines, s, n)
  {
    if p.current.Some? {
      var s :| RowOpen(lines, k, s, n);
      assert RowVars(lines, s, n, p.seen, p.fieldIndent);
      forall t | RowOpen(lines, k, t, n) ensures t == s { OneRowOpen(lines, k, s, t, n); }
      if p.fieldIndent.Some? {
        var f :| s < f < n && IsField(lines, f);
        assert p.fieldIndent == Some(lines[f].indent);
      }
    }
  }

  lemma StepKnows(lines: seq<Line>, n: nat, p: Parser)
    requires n < |lines| && Knows(lines, n, p) && Step(p, lines[n]).Ok?
    ensures Knows(lines, n + 1, Step(p, lines[n]).value)
  {
    var q := Step(p, lines[n]).value;
    assert Opener(lines[n]) ==> OpenAt(lines, n, n + 1);
    if p.inside {
      var k :| 0 <= k < n && OpenAt(lines, k, n);
      OpenStep(lines, k, n);
    }
    if Open(lines, n + 1) {
      var k :| 0 <= k < n + 1 && OpenAt(lines, k, n + 1);
      OpenStep(lines, k, n);
    }
    var m := n + 1;
    forall k | OpenAt(lines, k, m) ensures BlockVars(lines, k, m, q) {
      OpenStep(lines, k, n);
      if k < n {
        assert Open(lines, n) && BlockVars(lines, k, n, p);
        BlockStep(lines, k, n, p, q);
      }
    }
  }

  lemma BlockStep(lines: seq<Line>, k: int, n: nat, p: Parser, q: Parser)
    requires n < |lines| && OpenAt(lines, k, n) && OpenAt(lines, k, n + 1) && p.inside
    requires BlockVars(lines, k, n, p) && Step(p, lines[n]) == Ok(q)
    ensures BlockVars(lines, k, n + 1, q)
  {
    var l, m := lines[n], n + 1;
    if l.shape.Starter? && !Neutral(l) {
      assert RowOpen(lines, k, n, m) && IsStarter(lines, n);
      forall s | RowOpen(lines, k, s, m) ensures s == n { OneRowOpen(lines, k, s, n, m); }
      if p.rowIndent.Some? { var s :| k < s < n && IsStarter(lines, s); }
    } else {
      forall s ensures RowOpen(lines, k, s, m) <==> RowOpen(lines, k, s, n) {}
      forall s | RowOpen(lines, k, s, m) ensures RowVars(lines, s, m, q.seen, q.fieldIndent) {
        assert RowVars(lines, s, n, p.seen, p.fieldIndent);
        if Neutral(l) { SkipVars(lines, s, n, p.seen, p.fieldIndent); } else { FieldVars(lines, s, n, p, q); }
      }
    }
  }

  lemma SkipVars(lines: seq<Line>, s: int, n: nat, seen: set<string>, fieldIndent: Option<nat>)
    requires n < |lines| && !IsField(lines, n) && RowVars(lines, s, n, seen, fieldIndent)
    ensures RowVars(lines, s, n + 1, seen, fieldIndent)
  {
    forall key | key in seen && key != "surface"
      ensures exists f :: s < f < n + 1 && IsField(lines, f) && lines[f].shape.key == key
    {
      var f :| s < f < n && IsField(lines, f) && lines[f].shape.key == key;
    }
  }

  lemma FieldVars(lines: seq<Line>, s: int, n: nat, p: Parser, q: Parser)
    requires n < |lines| && s < n && IsField(lines, n)
    requires RowVars(lines, s, n, p.seen, p.fieldIndent)
    requires q.seen == p.seen + {lines[n].shape.key} && q.fieldIndent == Some(lines[n].indent)
    requires p.fieldIndent.Some? ==> p.fieldIndent == q.fieldIndent
    ensures RowVars(lines, s, n + 1, q.seen, q.fieldIndent)
  {
    forall key | key in q.seen && key != "surface"
      ensures exists f :: s < f < n + 1 && IsField(lines, f) && lines[f].shape.key == key
    {
      if key in p.seen {
        var f :| s < f < n && IsField(lines, f) && lines[f].shape.key == key;
      } else {
        assert s < n < n + 1 && IsField(lines, n) && lines[n].shape.key == key;
      }
    }
  }

  lemma {:induction false} PrefixAccepted(lines: seq<Line>, n: nat)
    requires n <= |lines|
    ensures Run(lines[..n]).Ok? <==> forall i | 0 <= i < n :: LineOk(lines, i)
    ensures Run(lines[..n]).Ok? ==> Knows(lines, n, Run(lines[..n]).value)
  {
    if n > 0 {
      assert lines[..n][..n - 1] == lines[..n - 1];
      PrefixAccepted(lines, n - 1);
      if Run(lines[..n - 1]).Ok? {
        StepAgrees(lines, n - 1, Run(lines[..n - 1]).value);
        if Step(Run(lines[..n - 1]).value, lines[n - 1]).Ok? { StepKnows(lines, n - 1, Run(lines[..n - 1]).value); }
      }
    }
  }

  /**
   The loop's six variables amount to this: a text gets through the line loop exactly when every line is
   acceptable where it stands -- no second block; in the block, no tabs and nothing but row starters at
   one indent and fields; every field in some row, at the indent of the row's other fields, under a key
   the row does not have yet; and every consumed scalar well formed.
   */
  lemma {:induction false} AcceptedExactly(lines: seq<Line>)
    ensures Run(lines).Ok? <==> forall i | 0 <= i < |lines| :: LineOk(lines, i)
  {
    PrefixAccepted(lines, |lines|);
    assert lines[..|lines|] == lines;
  }

  /** A row with a name and one consumed field that both say something. */
  ghost predicate RowComplete(u: Rules, lines: seq<Line>, s: int)
    requires IsRowLine(lines, s)
  {
    !u.blank(lines[s].shape.name.text) && exists value :: !u.blank(value) && OneValue(lines, s, value)
  }

  /** Some row, every row complete, and no folded name twice. */
  ghost predicate RowsComplete(u: Rules, lines: seq<Line>) {
    var at := Starters(lines, |lines|);
    && at != []
    && (forall i | 0 <= i < |at| :: RowComplete(u, lines, at[i]))
    && (forall i, j | 0 <= i < j < |at| ::
          u.fold(lines[at[i]].shape.name.text) != u.fold(lines[at[j]].shape.name.text))
  }

  lemma RowCompleteExactly(u: Rules, lines: seq<Line>, s: int, row: Row)
    requires IsRowLine(lines, s) && RowSays(lines, s, |lines|, row)
    ensures RowOk(u, row) <==> RowComplete(u, lines, s)
  {
    if RowOk(u, row) { RowHasOneValue(u, lines, s, row); }
    if RowComplete(u, lines, s) {
      var value :| !u.blank(value) && OneValue(lines, s, value);
      var f :| Belongs(lines, s, f) && Consumed(lines, f);
      BothFieldsClash(lines, s, row, value);
    }
  }

  lemma BothFieldsClash(lines: seq<Line>, s: int, row: Row, value: string)
    requires RowSays(lines, s, |lines|, row) && OneValue(lines, s, value)
    ensures StagingOf(row) == Some(value) && !(row.stagingInstance.Some? && row.staging.Some?)
  {
    assert STAGING_INSTANCE != STAGING by { assert |STAGING_INSTANCE| != |STAGING|; }
    var f :| Belongs(lines, s, f) && Consumed(lines, f);
    if row.stagingInstance.Some? && row.staging.Some? {
      var g :| Belongs(lines, s, g) && g < |lines| && lines[g].shape.key == STAGING_INSTANCE;
      var h :| Belongs(lines, s, h) && h < |lines| && lines[h].shape.key == STAGING;
      assert Consumed(lines, g) && Consumed(lines, h);
    }
  }

  lemma {:induction false} RowsCompleteExactly(u: Rules, lines: seq<Line>, rows: seq<Row>)
    requires AllSay(lines, Starters(lines, |lines|), |lines|, rows)
    ensures RowsOk(u, rows) <==> RowsComplete(u, lines)
  {
    var at := Starters(lines, |lines|);
    forall i | 0 <= i < |at|
      ensures rows[i] in rows && rows[i].surface == lines[at[i]].shape.name.text
      ensures RowOk(u, rows[i]) <==> RowComplete(u, lines, at[i])
    {
      RowCompleteExactly(u, lines, at[i], rows[i]);
    }
    if forall i | 0 <= i < |at| :: RowOk(u, rows[i]) {
      forall r | r in rows ensures RowOk(u, r) { var i :| 0 <= i < |rows| && rows[i] == r; }
    }
  }

  /**
   Main result on acceptance, without loop variables and without rows: a text parses exactly when every line
   is acceptable where it stands, there is at least one row, every row has a name and one consumed field,
   `staging_instance` or `staging`, that are not blank, and no folded name comes twice.
   */
  lemma ParsedExactly(u: Rules, lines: seq<Line>)
    ensures Parse(u, lines).Ok? <==>
            (forall i | 0 <= i < |lines| :: LineOk(lines, i)) && RowsComplete(u, lines)
  {
    AcceptedExactly(lines);
    if Run(lines).Ok? {
      assert lines[..|lines|] == lines;
      RunCollects(lines, |lines|);
      RunTracks(lines, |lines|);
      RowsCompleteExactly(u, lines, Flushed(Run(lines).value));
    }
  }

  // ---------------------------------------------------------------- the loop

  /** The parser's loop over lines with its six loop variables, rejecting on the first bad line. */
  method ParseManifest(u: Rules, lines: seq<Line>) returns (r: Result<seq<Entry>>)
    ensures r == Parse(u, lines)
  {
    var ever, inside, rows := false, false, [];
    var current: Option<Row> := None;
    var seen: set<string> := {};
    var fieldIndent: Option<nat> := None;
    var rowIndent: Option<nat> := None;
    var n := 0;
    while n < |lines|
      invariant 0 <= n <= |lines|
      invariant Run(lines[..n]) == Ok(Parser(ever, inside, rows, current, seen, fieldIndent, rowIndent))
    {
      var l := lines[n];
      assert lines[..n + 1][..n] == lines[..n];
      n := n + 1;
      if Neutral(l) { continue; }
      if !inside {
        if l.indent == 0 && l.shape.SurfacesKey? {
          if ever { RejectedHere(lines, n); return Err; }
          ever, inside := true, true;
        }
        continue;
      }
      if l.indent == 0 {
        if !KeyLike(l.shape) { RejectedHere(lines, n); return Err; }
        if current.Some? { rows, current := rows + [current.value], None; }
        inside := false;
        continue;
      }
      if l.tab { RejectedHere(lines, n); return Err; }
      if l.shape.Starter? {
        if rowIndent.None? {
          rowIndent := Some(l.indent);
        } else if rowIndent.value != l.indent {
          RejectedHere(lines, n);
          return Err;
        }
        if l.shape.name.Bad? { RejectedHere(lines, n); return Err; }
        if current.Some? { rows := rows + [current.value]; }
        current := Some(Row(l.shape.name.text, None, None));
        seen := {"surface"};
        fieldIndent := None;
        continue;
      }
      if !l.shape.KeyValue? || current.None? { RejectedHere(lines, n); return Err; }
      if fieldIndent.None? {
        fieldIndent := Some(l.indent);
      } else if fieldIndent.value != l.indent {
        RejectedHere(lines, n);
        return Err;
      }
      var key := l.shape.key;
      if key in seen { RejectedHere(lines, n); return Err; }
      seen := seen + {key};
      if key == STAGING_INSTANCE || key == STAGING {
        if l.shape.value.Bad? { RejectedHere(lines, n); return Err; }
        current := Some(Store(current.value, key, l.shape.value.text));
      }
    }
    assert lines[..|lines|] == lines;
    if current.Some? { rows := rows + [current.value]; }
    if !ever { return Err; }
    return Normalize(u, rows);
  }

  /** A rejected prefix rejects the whole text. */
  lemma {:induction false} RejectedHere(lines: seq<Line>, n: nat)
    requires n <= |lines| && Run(lines[..n]).Err?
    ensures Run(lines).Err?
  {
    if n < |lines| {
      var m := |lines| - 1;
      assert lines[..m][..n] == lines[..n];
      RejectedHere(lines[..m], n);
    } else {
      assert lines[..n] == lines;
    }
  }
}
