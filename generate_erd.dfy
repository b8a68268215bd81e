/** `generate_erd.py`: the tables of an XML schema document that the SQL
    queries use, reduced to their key columns, and the Graphviz DOT text of
    their entity-relationship diagram. */
module GenerateErd {
  import opened Wrappers
  import opened Text

  /** The tables used in the SQL queries; every other table is dropped. */
  const SqlTables: set<string> := {
    "patient", "patplan", "inssub", "payplan", "procedurelog", "paysplit",
    "claimproc", "appointment", "appointmenttype", "payment"
  }

  /** A `column` element: its `name`, `type` and `fk` attributes (the empty
      string when absent) and the text of its `summary` child, if any. */
  datatype XmlColumn = XmlColumn(name: string, colType: string, fk: string, summary: Option<string>)

  /** A `table` element: its `name` attribute, the text of its `summary`
      child, if any, and its `column` descendants in document order. */
  datatype XmlTable = XmlTable(name: string, summary: Option<string>, columns: seq<XmlColumn>)

  datatype ColumnInfo = ColumnInfo(name: string, colType: string, isPk: bool)

  datatype ForeignKey = ForeignKey(column: string, referencedTable: string)

  /** `TableInfo`. */
  datatype TableInfo = TableInfo(
    name: string,
    description: string,
    columns: seq<ColumnInfo>,
    foreignKeys: seq<ForeignKey>)

  // ---------------------------------------------------------------------------
  // parse_schema_xml

  /** `s.split('.')[0]`: the text before the first full stop. */
  function FirstSentence(s: string): string {
    if s == [] || s[0] == '.' then [] else [s[0]] + FirstSentence(s[1..])
  }

  /** The first sentence is the longest prefix without a full stop. */
  lemma {:induction false} FirstSentencePrefix(s: string)
    ensures var r := FirstSentence(s);
      && |r| <= |s| && r == s[..|r|]
      && (forall i :: 0 <= i < |r| ==> r[i] != '.')
      && (|r| == |s| || s[|r|] == '.')
  {
    if s != [] && s[0] != '.' {
      FirstSentencePrefix(s[1..]);
    }
  }

  /** The first sentence of `a + "." + b` is `a` when `a` has no full stop. */
  lemma {:induction false} FirstSentenceStopsAtDot(a: string, b: string)
    requires forall i :: 0 <= i < |a| ==> a[i] != '.'
    ensures FirstSentence(a + "." + b) == a
  {
    if a != [] {
      FirstSentenceStopsAtDot(a[1..], b);
      assert (a + "." + b)[1..] == a[1..] + "." + b;
      assert a == [a[0]] + a[1..];
    }
  }

  /** The description kept for a table: the summary's first sentence, or
      the empty string when there is no summary text. */
  function TableDescription(summary: Option<string>): string {
    if summary.Some? && summary.value != "" then FirstSentence(summary.value) else ""
  }

  lemma TableDescriptionExample()
    ensures TableDescription(Some("Stores patient info. See also billing.")) == "Stores patient info"
  {
    var a := "Stores patient info";
    assert a + "." + " See also billing." == "Stores patient info. See also billing.";
    FirstSentenceStopsAtDot(a, " See also billing.");
  }

  /** `is_pk`: the summary text contains "Primary key", case-sensitively. */
  predicate IsPrimaryKey(c: XmlColumn) {
    c.summary.Some? && c.summary.value != "" && Contains(c.summary.value, "Primary key")
  }

  /** A column that has both a name and a type. */
  predicate Usable(c: XmlColumn) {
    c.name != "" && c.colType != ""
  }

  /** `fk and fk in sql_tables`. */
  predicate ReferencesSqlTable(c: XmlColumn) {
    c.fk != "" && c.fk in SqlTables
  }

  predicate Kept(c: XmlColumn) {
    Usable(c) && (IsPrimaryKey(c) || ReferencesSqlTable(c))
  }

  function InfoOf(c: XmlColumn): ColumnInfo {
    ColumnInfo(c.name, c.colType, IsPrimaryKey(c))
  }

  /** `columns` after the column loop has seen `cols`. */
  function KeptColumns(cols: seq<XmlColumn>): seq<ColumnInfo> {
    if cols == [] then []
    else
      var c := cols[|cols| - 1];
      KeptColumns(cols[..|cols| - 1]) + (if Kept(c) then [InfoOf(c)] else [])
  }

  predicate ForeignKeyColumn(c: XmlColumn) {
    Usable(c) && ReferencesSqlTable(c)
  }

  function ForeignKeyOf(c: XmlColumn): ForeignKey {
    ForeignKey(c.name, c.fk)
  }

  /** `foreign_keys` after the column loop has seen `cols`. */
  function ForeignKeysOf(cols: seq<XmlColumn>): seq<ForeignKey> {
    if cols == [] then []
    else
      var c := cols[|cols| - 1];
      ForeignKeysOf(cols[..|cols| - 1])
      + (if ForeignKeyColumn(c) then [ForeignKeyOf(c)] else [])
  }

  function TableOf(t: XmlTable): TableInfo {
    TableInfo(t.name, TableDescription(t.summary), KeptColumns(t.columns), ForeignKeysOf(t.columns))
  }

  predicate Selected(t: XmlTable) {
    t.name != "" && t.name in SqlTables
  }

  /** The result of `parse_schema_xml` on a document whose tables are `doc`. */
  function SelectedTables(doc: seq<XmlTable>): seq<TableInfo> {
    if doc == [] then []
    else
      var t := doc[|doc| - 1];
      SelectedTables(doc[..|doc| - 1]) + (if Selected(t) then [TableOf(t)] else [])
  }

  /** The column loop of `parse_schema_xml` for one table. */
  method CollectColumns(cols: seq<XmlColumn>) returns (columns: seq<ColumnInfo>, foreignKeys: seq<ForeignKey>)
    ensures columns == KeptColumns(cols)
    ensures foreignKeys == ForeignKeysOf(cols)
  {
    columns := [];
    foreignKeys := [];
    for i := 0 to |cols|
      invariant columns == KeptColumns(cols[..i])
      invariant foreignKeys == ForeignKeysOf(cols[..i])
    {
      var column := cols[i];
      assert cols[..i + 1][..i] == cols[..i];
      if column.name == "" || column.colType == "" {
        continue;
      }
      var isPk := column.summary.Some? && column.summary.value != "" && Contains(column.summary.value, "Primary key");
      var fk := column.fk;
      if isPk || (fk != "" && fk in SqlTables) {
        columns := columns + [ColumnInfo(column.name, column.colType, isPk)];
      }
      if fk != "" && fk in SqlTables {
        foreignKeys := foreignKeys + [ForeignKey(column.name, fk)];
      }
    }
    assert cols[..|cols|] == cols;
  }

  /** `parse_schema_xml` over the document's tables in document order. */
  method ParseSchemaXml(doc: seq<XmlTable>) returns (tables: seq<TableInfo>)
    ensures tables == SelectedTables(doc)
  {
    tables := [];
    for i := 0 to |doc|
      invariant tables == SelectedTables(doc[..i])
    {
      var table := doc[i];
      assert doc[..i + 1][..i] == doc[..i];
      if table.name == "" || table.name !in SqlTables {
        continue;
      }
      var description := if table.summary.Some? && table.summary.value != "" then table.summary.value else "";
      description := if description != "" then FirstSentence(description) else "";
      var columns, foreignKeys := CollectColumns(table.columns);
      tables := tables + [TableInfo(table.name, description, columns, foreignKeys)];
    }
    assert doc[..|doc|] == doc;
  }

  lemma {:induction false} SelectedTablesSplit(a: seq<XmlTable>, b: seq<XmlTable>)
    ensures SelectedTables(a + b) == SelectedTables(a) + SelectedTables(b)
    decreases |b|
  {
    if b == [] {
      assert a + b == a;
    } else {
      assert (a + b)[..|a + b| - 1] == a + b[..|b| - 1];
      SelectedTablesSplit(a, b[..|b| - 1]);
    }
  }

  lemma {:induction false} SelectedTableReturned(doc: seq<XmlTable>, i: nat)
    requires i < |doc| && Selected(doc[i])
    ensures TableOf(doc[i]) in SelectedTables(doc)
  {
    var init := doc[..|doc| - 1];
    if i < |init| {
      SelectedTableReturned(init, i);
      assert init[i] == doc[i];
    }
  }

  lemma {:induction false} ReturnedTableSelected(doc: seq<XmlTable>, info: TableInfo)
    requires info in SelectedTables(doc)
    ensures exists i :: 0 <= i < |doc| && Selected(doc[i]) && info == TableOf(doc[i])
  {
    var init := doc[..|doc| - 1];
    if info in SelectedTables(init) {
      ReturnedTableSelected(init, info);
      var i :| 0 <= i < |init| && Selected(init[i]) && info == TableOf(init[i]);
      assert doc[i] == init[i];
    } else {
      assert Selected(doc[|doc| - 1]) && info == TableOf(doc[|doc| - 1]);
    }
  }

  /** A table is returned exactly when its name is non-empty and in
      `SqlTables`, as the table built from it. */
  lemma SelectedTablesMembership(doc: seq<XmlTable>, info: TableInfo)
    ensures info in SelectedTables(doc) <==> exists i :: 0 <= i < |doc| && Selected(doc[i]) && info == TableOf(doc[i])
    ensures info in SelectedTables(doc) ==> info.name != "" && info.name in SqlTables
  {
    if info in SelectedTables(doc) {
      ReturnedTableSelected(doc, info);
    }
    if exists i :: 0 <= i < |doc| && Selected(doc[i]) && info == TableOf(doc[i]) {
      var i :| 0 <= i < |doc| && Selected(doc[i]) && info == TableOf(doc[i]);
      SelectedTableReturned(doc, i);
    }
  }

  /** No de-duplication: a table that appears twice is returned twice. */
  lemma DuplicateTablesKept(doc: seq<XmlTable>, t: XmlTable)
    requires Selected(t)
    ensures SelectedTables(doc + [t, t]) == SelectedTables(doc) + [TableOf(t), TableOf(t)]
  {
    SelectedTablesSplit(doc, [t, t]);
    assert [t, t][..1] == [t];
    assert [t][..0] == [];
    assert SelectedTables([t]) == [TableOf(t)];
  }

  lemma {:induction false} KeptColumnsSplit(a: seq<XmlColumn>, b: seq<XmlColumn>)
    ensures KeptColumns(a + b) == KeptColumns(a) + KeptColumns(b)
    ensures ForeignKeysOf(a + b) == ForeignKeysOf(a) + ForeignKeysOf(b)
    decreases |b|
  {
    if b == [] {
      assert a + b == a;
    } else {
      assert (a + b)[..|a + b| - 1] == a + b[..|b| - 1];
      KeptColumnsSplit(a, b[..|b| - 1]);
    }
  }

  /** A column without a name or a type contributes neither a column nor a
      foreign key. */
  lemma UnusableColumnSkipped(a: seq<XmlColumn>, c: XmlColumn, b: seq<XmlColumn>)
    requires c.name == "" || c.colType == ""
    ensures KeptColumns(a + [c] + b) == KeptColumns(a + b)
    ensures ForeignKeysOf(a + [c] + b) == ForeignKeysOf(a + b)
  {
    KeptColumnsSplit(a + [c], b);
    KeptColumnsSplit(a, [c]);
    KeptColumnsSplit(a, b);
    assert [c][..0] == [];
    assert KeptColumns([c]) == [];
    assert ForeignKeysOf([c]) == [];
    assert a + [c] + b == (a + [c]) + b;
  }

  lemma {:induction false} KeptColumnKept(cols: seq<XmlColumn>, i: nat)
    requires i < |cols| && Kept(cols[i])
    ensures InfoOf(cols[i]) in KeptColumns(cols)
  {
    var init := cols[..|cols| - 1];
    if i < |init| {
      KeptColumnKept(init, i);
      assert init[i] == cols[i];
    }
  }

  lemma {:induction false} KeptColumnSource(cols: seq<XmlColumn>, info: ColumnInfo)
    requires info in KeptColumns(cols)
    ensures exists i :: 0 <= i < |cols| && Kept(cols[i]) && info == InfoOf(cols[i])
  {
    var init := cols[..|cols| - 1];
    if info in KeptColumns(init) {
      KeptColumnSource(init, info);
      var i :| 0 <= i < |init| && Kept(init[i]) && info == InfoOf(init[i]);
      assert cols[i] == init[i];
    } else {
      assert Kept(cols[|cols| - 1]) && info == InfoOf(cols[|cols| - 1]);
    }
  }

  /** A column is kept exactly when it is usable and is a primary key or
      references a table of `SqlTables`; its flag is `IsPrimaryKey`. */
  lemma KeptColumnsMembership(cols: seq<XmlColumn>, info: ColumnInfo)
    ensures info in KeptColumns(cols) <==> exists i :: 0 <= i < |cols| && Kept(cols[i]) && info == InfoOf(cols[i])
  {
    if info in KeptColumns(cols) {
      KeptColumnSource(cols, info);
    }
    if exists i :: 0 <= i < |cols| && Kept(cols[i]) && info == InfoOf(cols[i]) {
      var i :| 0 <= i < |cols| && Kept(cols[i]) && info == InfoOf(cols[i]);
      KeptColumnKept(cols, i);
    }
  }

  lemma {:induction false} ForeignKeyListed(cols: seq<XmlColumn>, i: nat)
    requires i < |cols| && ForeignKeyColumn(cols[i])
    ensures ForeignKeyOf(cols[i]) in ForeignKeysOf(cols)
  {
    var init := cols[..|cols| - 1];
    if i < |init| {
      ForeignKeyListed(init, i);
      assert init[i] == cols[i];
    }
  }

  lemma {:induction false} ForeignKeySource(cols: seq<XmlColumn>, fk: ForeignKey)
    requires fk in ForeignKeysOf(cols)
    ensures exists i :: 0 <= i < |cols| && ForeignKeyColumn(cols[i]) && fk == ForeignKeyOf(cols[i])
  {
    var init := cols[..|cols| - 1];
    if fk in ForeignKeysOf(init) {
      ForeignKeySource(init, fk);
      var i :| 0 <= i < |init| && ForeignKeyColumn(init[i]) && fk == ForeignKeyOf(init[i]);
      assert cols[i] == init[i];
    } else {
      assert ForeignKeyColumn(cols[|cols| - 1]) && fk == ForeignKeyOf(cols[|cols| - 1]);
    }
  }

  /** `foreign_keys` holds exactly the pairs of the usable columns whose `fk`
      is in `SqlTables`. */
  lemma ForeignKeysMembership(cols: seq<XmlColumn>, fk: ForeignKey)
    ensures fk in ForeignKeysOf(cols) <==>
      exists i :: 0 <= i < |cols| && ForeignKeyColumn(cols[i]) && fk == ForeignKeyOf(cols[i])
  {
    if fk in ForeignKeysOf(cols) {
      ForeignKeySource(cols, fk);
    }
    if exists i :: 0 <= i < |cols| && ForeignKeyColumn(cols[i]) && fk == ForeignKeyOf(cols[i]) {
      var i :| 0 <= i < |cols| && ForeignKeyColumn(cols[i]) && fk == ForeignKeyOf(cols[i]);
      ForeignKeyListed(cols, i);
    }
  }

  /** Every foreign-key column is also among the kept columns, and every
      referenced table is one of `SqlTables`. */
  lemma ForeignKeyColumnsKept(cols: seq<XmlColumn>, fk: ForeignKey)
    requires fk in ForeignKeysOf(cols)
    ensures fk.referencedTable in SqlTables
    ensures exists info :: info in KeptColumns(cols) && info.name == fk.column
  {
    ForeignKeySource(cols, fk);
    var i :| 0 <= i < |cols| && ForeignKeyColumn(cols[i]) && fk == ForeignKeyOf(cols[i]);
    KeptColumnKept(cols, i);
  }

  /** Several columns can be primary keys at once. */
  lemma TwoPrimaryKeys()
    ensures var a := XmlColumn("PatNum", "bigint", "", Some("Primary key."));
      var b := XmlColumn("ClinicNum", "bigint", "", Some("Primary key too."));
      KeptColumns([a, b]) == [ColumnInfo("PatNum", "bigint", true), ColumnInfo("ClinicNum", "bigint", true)]
  {
    var a := XmlColumn("PatNum", "bigint", "", Some("Primary key."));
    var b := XmlColumn("ClinicNum", "bigint", "", Some("Primary key too."));
    assert OccursAt("Primary key.", "Primary key", 0);
    assert OccursAt("Primary key too.", "Primary key", 0);
    assert IsPrimaryKey(a) && IsPrimaryKey(b);
    assert [a, b][..1] == [a];
    assert [a][..0] == [];
    assert KeptColumns([a]) == [InfoOf(a)];
  }

  // ---------------------------------------------------------------------------
  // generate_dot_erd

  const GraphOpen := "digraph ERD {"

  /** The fixed opening lines: graph settings and the four clusters. */
  const Preamble: seq<string> := [GraphOpen] + [
    "    rankdir=TB;",
    "    compound=true;",
    "    splines=polyline;",
    "    concentrate=true;",
    "    node [shape=record, fontname=\"Arial\", fontsize=10, margin=\"0.2,0.1\"];",
    "    edge [fontname=\"Arial\", fontsize=8, len=1.2];",
    "",
    "    # Define node groups",
    "    subgraph cluster_patient {",
    "        label=\"Patient Information\";",
    "        style=rounded;",
    "        bgcolor=\"#f0f8ff\";",
    "        color=\"#a0c8ff\";",
    "        patient;  # Core patient table",
    "    }",
    "",
    "    subgraph cluster_appointments {",
    "        label=\"Appointments\";",
    "        style=rounded;",
    "        bgcolor=\"#f0fff0\";",
    "        color=\"#a0ffa0\";",
    "        appointment;",
    "        appointmenttype;",
    "        procedurelog;",
    "    }",
    "",
    "    subgraph cluster_insurance {",
    "        label=\"Insurance\";",
    "        style=rounded;",
    "        bgcolor=\"#fff0f8\";",
    "        color=\"#ffa0c8\";",
    "        inssub;",
    "        patplan;",
    "        claimproc;",
    "    }",
    "",
    "    subgraph cluster_payments {",
    "        label=\"Payments\";",
    "        style=rounded;",
    "        bgcolor=\"#fff8f0\";",
    "        color=\"#ffd0a0\";",
    "        payment;",
    "        payplan;",
    "        paysplit;",
    "    }",
    ""
  ]

  const RelationshipsComment := "\n    # Relationships"

  /** `replace('"', '\\"')`. */
  function EscapeQuotes(s: string): string {
    if s == [] then [] else (if s[0] == '"' then "\\\"" else [s[0]]) + EscapeQuotes(s[1..])
  }

  /** `replace('\n', ' ')`. */
  function NewlinesToSpaces(s: string): string {
    seq(|s|, i requires 0 <= i < |s| => if s[i] == '\n' then ' ' else s[i])
  }

  /** The description as it goes into a node label. */
  function LabelDescription(description: string): string {
    Strip(NewlinesToSpaces(EscapeQuotes(description)))
  }

  /** Every quote in `s` comes right after a backslash. */
  predicate QuotesEscaped(s: string) {
    forall i :: 0 <= i < |s| && s[i] == '"' ==> i > 0 && s[i - 1] == '\\'
  }

  lemma {:induction false} EscapeQuotesEscapes(s: string)
    ensures QuotesEscaped(EscapeQuotes(s))
    ensures EscapeQuotes(s) == [] || EscapeQuotes(s)[0] != '"'
  {
    if s != [] {
      EscapeQuotesEscapes(s[1..]);
      var head: string := if s[0] == '"' then "\\\"" else [s[0]];
      var rest := EscapeQuotes(s[1..]);
      var r := head + rest;
      forall i | 0 <= i < |r| && r[i] == '"' ensures i > 0 && r[i - 1] == '\\' {
        if i >= |head| {
          assert rest[i - |head|] == '"';
          if i - |head| == 0 {
            assert false;
          }
        }
      }
    }
  }

  /** The label text of a description holds no line break, and no quote in it
      can end the label. */
  lemma LabelDescriptionSafe(description: string)
    ensures '\n' !in LabelDescription(description)
    ensures QuotesEscaped(LabelDescription(description))
  {
    var e := EscapeQuotes(description);
    var n := NewlinesToSpaces(e);
    EscapeQuotesEscapes(description);
    assert QuotesEscaped(n) by {
      forall i | 0 <= i < |n| && n[i] == '"' ensures i > 0 && n[i - 1] == '\\' {
        assert e[i] == '"';
      }
    }
    var l := StripLeft(n);
    StripLeftIsSuffix(n);
    var k := |n| - |l|;
    forall i | 0 <= i < |l| && l[i] == '"' ensures i > 0 && l[i - 1] == '\\' {
      assert n[k + i] == '"';
      assert k + i > 0 && n[k + i - 1] == '\\';
      if i == 0 {
        assert false;
      }
    }
    var r := StripRight(l);
    StripRightIsPrefix(l);
    forall i | 0 <= i < |r| && r[i] == '"' ensures i > 0 && r[i - 1] == '\\' {
      assert l[i] == '"';
    }
    forall i | 0 <= i < |r| ensures r[i] != '\n' {
      assert r[i] == n[k + i];
    }
  }

  /** One column's field in a node label. */
  function ColumnCell(c: ColumnInfo): string {
    "<" + c.name + "> " + c.name + (if c.isPk then " (PK)" else "") + "\\n" + c.colType
  }

  function ColumnCells(columns: seq<ColumnInfo>): seq<string> {
    seq(|columns|, i requires 0 <= i < |columns| => ColumnCell(columns[i]))
  }

  /** The fields of a table's label: the description first when there is one. */
  function Cells(t: TableInfo): seq<string> {
    (if t.description != "" then ["<desc>" + LabelDescription(t.description)] else []) + ColumnCells(t.columns)
  }

  function NodeLine(t: TableInfo): string {
    "    " + t.name + " [label=\"{" + t.name + "|" + Join("|", Cells(t)) + "}\"];"
  }

  function NodeLines(tables: seq<TableInfo>): seq<string> {
    seq(|tables|, i requires 0 <= i < |tables| => NodeLine(tables[i]))
  }

  /** A primary-key column's field carries the ` (PK)` marker; any other
      column's field is just its port, name and type. */
  lemma ColumnCellMarksKeys(c: ColumnInfo)
    ensures c.isPk ==> Contains(ColumnCell(c), " (PK)")
    ensures !c.isPk ==> ColumnCell(c) == "<" + c.name + "> " + c.name + "\\n" + c.colType
  {
    if c.isPk {
      var pre := "<" + c.name + "> " + c.name;
      assert ColumnCell(c) == pre + " (PK)" + ("\\n" + c.colType);
      assert OccursAt(ColumnCell(c), " (PK)", |pre|);
    }
  }

  /** A node line declares the table's record label `{name|fields}`; the
      fields open with the `<desc>` port exactly when there is a description,
      and with the first column's port otherwise. */
  lemma NodeLineShape(t: TableInfo)
    ensures StartsWith(NodeLine(t), "    " + t.name + " [label=\"{" + t.name + "|")
    ensures EndsWith(NodeLine(t), "}\"];")
    ensures t.description != "" ==> StartsWith(Join("|", Cells(t)), "<desc>" + LabelDescription(t.description))
    ensures t.description == "" && t.columns != [] ==> StartsWith(Join("|", Cells(t)), ColumnCell(t.columns[0]))
    ensures t.description == "" && t.columns == [] ==> Join("|", Cells(t)) == ""
  {
    var pre := "    " + t.name + " [label=\"{" + t.name + "|";
    var j := Join("|", Cells(t));
    assert NodeLine(t) == pre + j + "}\"];";
    assert (pre + j + "}\"];")[..|pre|] == pre;
    if Cells(t) != [] {
      JoinFraming("|", Cells(t));
    }
  }

  /** Every column's field appears in the table's node label. */
  lemma NodeLineHasColumns(t: TableInfo, i: nat)
    requires i < |t.columns|
    ensures Contains(NodeLine(t), ColumnCell(t.columns[i]))
  {
    var cells := Cells(t);
    var k := if t.description != "" then i + 1 else i;
    assert cells[k] == ColumnCell(t.columns[i]);
    JoinContains("|", cells, k);
    var pre := "    " + t.name + " [label=\"{" + t.name + "|";
    var j := Join("|", cells);
    assert NodeLine(t) == pre + (j + "}\"];");
    ContainsInAppend(j, "}\"];", ColumnCell(t.columns[i]));
    ContainsInAppend(pre, j + "}\"];", ColumnCell(t.columns[i]));
  }

  /** How an edge is drawn: a reference to `patient` wins over a
      self-reference, which wins over the plain style. */
  datatype EdgeStyle = PatientEdge | SelfEdge | PlainEdge

  function StyleOf(source: string, target: string): EdgeStyle {
    if target == "patient" then PatientEdge
    else if source == target then SelfEdge
    else PlainEdge
  }

  /** What follows the label text: the style attributes and the end of the
      statement. */
  function EdgeClose(style: EdgeStyle): string {
    match style
    case PatientEdge => "\" style=dashed color=\"#4040ff\" fontcolor=\"#4040ff\"];"
    case SelfEdge => "\" style=dotted color=\"#808080\" fontcolor=\"#808080\"];"
    case PlainEdge => "\"];"
  }

  function EdgeLine(source: string, column: string, target: string): string {
    "    " + source + ":" + column + " -> " + target + " [label=\"" + column + EdgeClose(StyleOf(source, target))
  }

  function TableNames(tables: seq<TableInfo>): set<string> {
    set t | t in tables :: t.name
  }

  /** The edges of `t`'s foreign keys `fks` whose target is in `names`. */
  function EdgesOf(source: string, fks: seq<ForeignKey>, names: set<string>): seq<string> {
    if fks == [] then []
    else
      var fk := fks[|fks| - 1];
      EdgesOf(source, fks[..|fks| - 1], names)
      + (if fk.referencedTable in names then [EdgeOf(source, fk)] else [])
  }

  /** The edges of the tables `ts`, table by table. */
  function EdgeLines(ts: seq<TableInfo>, names: set<string>): seq<string> {
    if ts == [] then []
    else
      var t := ts[|ts| - 1];
      EdgeLines(ts[..|ts| - 1], names) + EdgesOf(t.name, t.foreignKeys, names)
  }

  /** The lines of the DOT text, before joining. */
  function DotLines(tables: seq<TableInfo>): seq<string> {
    Preamble + NodeLines(tables) + [RelationshipsComment] + EdgeLines(tables, TableNames(tables)) + ["}"]
  }

  function Dot(tables: seq<TableInfo>): string {
    Join("\n", DotLines(tables))
  }

  /** The label fields of one table. */
  method LabelCells(t: TableInfo) returns (columns: seq<string>)
    ensures columns == Cells(t)
  {
    columns := [];
    if t.description != "" {
      var desc := Strip(NewlinesToSpaces(EscapeQuotes(t.description)));
      columns := columns + ["<desc>" + desc];
    }
    ghost var head := columns;
    for i := 0 to |t.columns|
      invariant columns == head + ColumnCells(t.columns[..i])
    {
      var c := t.columns[i];
      var colStr := "<" + c.name + "> " + c.name;
      if c.isPk {
        colStr := colStr + " (PK)";
      } else {
        assert colStr + "" == colStr;
      }
      colStr := colStr + "\\n" + c.colType;
      assert colStr == ColumnCell(c);
      columns := columns + [colStr];
      assert ColumnCells(t.columns[..i + 1]) == ColumnCells(t.columns[..i]) + [ColumnCell(c)];
    }
    assert t.columns[..|t.columns|] == t.columns;
  }

  /** The inner relationship loop: the edges of one table's foreign keys. */
  method TableEdges(source: string, fks: seq<ForeignKey>, names: set<string>) returns (edges: seq<string>)
    ensures edges == EdgesOf(source, fks, names)
  {
    edges := [];
    for j := 0 to |fks|
      invariant edges == EdgesOf(source, fks[..j], names)
    {
      var fk := fks[j];
      if fk.referencedTable in names {
        var edge: string;
        if fk.referencedTable == "patient" {
          edge := "    " + source + ":" + fk.column + " -> " + fk.referencedTable + " [label=\"" + fk.column
                  + "\" style=dashed color=\"#4040ff\" fontcolor=\"#4040ff\"];";
        } else if source == fk.referencedTable {
          edge := "    " + source + ":" + fk.column + " -> " + fk.referencedTable + " [label=\"" + fk.column
                  + "\" style=dotted color=\"#808080\" fontcolor=\"#808080\"];";
        } else {
          edge := "    " + source + ":" + fk.column + " -> " + fk.referencedTable + " [label=\"" + fk.column + "\"];";
        }
        assert edge == EdgeOf(source, fk);
        edges := edges + [edge];
      }
      assert fks[..j + 1][..j] == fks[..j];
    }
    assert fks[..|fks|] == fks;
  }

  /** The relationship loops: each table's foreign keys whose target is
      one of the tables. */
  method CollectEdges(tables: seq<TableInfo>) returns (edges: seq<string>)
    ensures edges == EdgeLines(tables, TableNames(tables))
  {
    edges := [];
    var names := set t | t in tables :: t.name;
    for i := 0 to |tables|
      invariant edges == EdgeLines(tables[..i], names)
    {
      var table := tables[i];
      var tableEdges := TableEdges(table.name, table.foreignKeys, names);
      edges := edges + tableEdges;
      assert tables[..i + 1][..i] == tables[..i];
    }
    assert tables[..|tables|] == tables;
  }

  /** `generate_dot_erd`. */
  method GenerateDotErd(tables: seq<TableInfo>) returns (text: string)
    ensures text == Dot(tables)
  {
    var dot := Preamble;
    for i := 0 to |tables|
      invariant dot == Preamble + NodeLines(tables[..i])
    {
      var table := tables[i];
      var columns := LabelCells(table);
      var nodeDef := "    " + table.name + " [label=\"{" + table.name + "|" + Join("|", columns) + "}\"];";
      dot := dot + [nodeDef];
      assert NodeLines(tables[..i + 1]) == NodeLines(tables[..i]) + [NodeLine(table)];
    }
    assert tables[..|tables|] == tables;
    dot := dot + ["\n    # Relationships"];
    var edges := CollectEdges(tables);
    dot := dot + edges + ["}"];
    text := Join("\n", dot);
  }

  /** The text opens the graph on its first line and closes it on its last. */
  lemma DotFraming(tables: seq<TableInfo>)
    ensures StartsWith(Dot(tables), "digraph ERD {")
    ensures EndsWith(Dot(tables), "}")
  {
    var lines := DotLines(tables);
    assert Preamble[0] == GraphOpen;
    assert lines[0] == GraphOpen;
    assert lines[|lines| - 1] == "}";
    JoinFraming("\n", lines);
  }

  /** One node line per table, in input order, right after the fixed
      preamble, then the relationships comment and the edges. */
  lemma DotLayout(tables: seq<TableInfo>)
    ensures var lines := DotLines(tables);
      && |lines| == |Preamble| + |tables| + 1 + |EdgeLines(tables, TableNames(tables))| + 1
      && lines[|Preamble|..|Preamble| + |tables|] == NodeLines(tables)
      && lines[|Preamble| + |tables|] == RelationshipsComment
  {
    var lines := DotLines(tables);
    assert lines[|Preamble|..|Preamble| + |tables|] == NodeLines(tables);
  }

  /** The edge a foreign key of `source` gives. */
  function EdgeOf(source: string, fk: ForeignKey): string {
    EdgeLine(source, fk.column, fk.referencedTable)
  }

  lemma {:induction false} ForeignKeyDrawn(source: string, fks: seq<ForeignKey>, names: set<string>, j: nat)
    requires j < |fks| && fks[j].referencedTable in names
    ensures EdgeOf(source, fks[j]) in EdgesOf(source, fks, names)
  {
    var init := fks[..|fks| - 1];
    if j < |init| {
      ForeignKeyDrawn(source, init, names, j);
      assert init[j] == fks[j];
    }
  }

  lemma {:induction false} EdgeOfForeignKey(source: string, fks: seq<ForeignKey>, names: set<string>, line: string)
    requires line in EdgesOf(source, fks, names)
    ensures exists j :: 0 <= j < |fks| && fks[j].referencedTable in names && line == EdgeOf(source, fks[j])
  {
    var init := fks[..|fks| - 1];
    if line in EdgesOf(source, init, names) {
      EdgeOfForeignKey(source, init, names, line);
      var j :| 0 <= j < |init| && init[j].referencedTable in names && line == EdgeOf(source, init[j]);
      assert fks[j] == init[j];
    } else {
      assert fks[|fks| - 1].referencedTable in names && line == EdgeOf(source, fks[|fks| - 1]);
    }
  }

  /** The edges of one table's foreign keys: exactly those whose target is
      among the tables. */
  lemma EdgesOfMembership(source: string, fks: seq<ForeignKey>, names: set<string>, line: string)
    ensures line in EdgesOf(source, fks, names) <==>
      exists j :: 0 <= j < |fks| && fks[j].referencedTable in names && line == EdgeOf(source, fks[j])
  {
    if line in EdgesOf(source, fks, names) {
      EdgeOfForeignKey(source, fks, names, line);
    }
    if exists j :: 0 <= j < |fks| && fks[j].referencedTable in names && line == EdgeOf(source, fks[j]) {
      var j :| 0 <= j < |fks| && fks[j].referencedTable in names && line == EdgeOf(source, fks[j]);
      ForeignKeyDrawn(source, fks, names, j);
    }
  }

  /** A foreign key of table `i` whose target is among `names` is drawn. */
  predicate DrawnAt(ts: seq<TableInfo>, names: set<string>, i: int, j: int) {
    0 <= i < |ts| && 0 <= j < |ts[i].foreignKeys| && ts[i].foreignKeys[j].referencedTable in names
  }

  lemma {:induction false} EdgeDrawn(ts: seq<TableInfo>, names: set<string>, i: nat, j: nat)
    requires DrawnAt(ts, names, i, j)
    ensures EdgeOf(ts[i].name, ts[i].foreignKeys[j]) in EdgeLines(ts, names)
  {
    var init := ts[..|ts| - 1];
    if i < |init| {
      EdgeDrawn(init, names, i, j);
      assert init[i] == ts[i];
    } else {
      ForeignKeyDrawn(ts[i].name, ts[i].foreignKeys, names, j);
    }
  }

  lemma {:induction false} EdgeSource(ts: seq<TableInfo>, names: set<string>, line: string)
    requires line in EdgeLines(ts, names)
    ensures exists i, j :: DrawnAt(ts, names, i, j) && line == EdgeOf(ts[i].name, ts[i].foreignKeys[j])
  {
    var init := ts[..|ts| - 1];
    var t := ts[|ts| - 1];
    if line in EdgeLines(init, names) {
      EdgeSource(init, names, line);
      var i, j :| DrawnAt(init, names, i, j) && line == EdgeOf(init[i].name, init[i].foreignKeys[j]);
      assert ts[i] == init[i];
      assert DrawnAt(ts, names, i, j);
    } else {
      EdgeOfForeignKey(t.name, t.foreignKeys, names, line);
      var j :| 0 <= j < |t.foreignKeys| && t.foreignKeys[j].referencedTable in names && line == EdgeOf(t.name, t.foreignKeys[j]);
      assert DrawnAt(ts, names, |ts| - 1, j);
    }
  }

  /** An edge is drawn for a table's foreign key exactly when the target is
      the name of one of the tables; each edge comes from such a key. */
  lemma EdgeLinesMembership(ts: seq<TableInfo>, names: set<string>, line: string)
    ensures line in EdgeLines(ts, names) <==>
      exists i, j :: DrawnAt(ts, names, i, j) && line == EdgeOf(ts[i].name, ts[i].foreignKeys[j])
  {
    if line in EdgeLines(ts, names) {
      EdgeSource(ts, names, line);
    }
    if exists i, j :: DrawnAt(ts, names, i, j) && line == EdgeOf(ts[i].name, ts[i].foreignKeys[j]) {
      var i, j :| DrawnAt(ts, names, i, j) && line == EdgeOf(ts[i].name, ts[i].foreignKeys[j]);
      EdgeDrawn(ts, names, i, j);
    }
  }

  /** No de-duplication: two foreign keys to the same target give two edges. */
  lemma DuplicateEdgesKept(source: string, fk: ForeignKey, names: set<string>)
    requires fk.referencedTable in names
    ensures EdgesOf(source, [fk, fk], names)
         == [EdgeLine(source, fk.column, fk.referencedTable), EdgeLine(source, fk.column, fk.referencedTable)]
  {
    assert [fk, fk][..1] == [fk];
    assert [fk][..0] == [];
    assert EdgesOf(source, [fk], names) == [EdgeLine(source, fk.column, fk.referencedTable)];
  }

  /** The style precedence: a reference to `patient` is dashed blue, even
      from `patient` itself; otherwise a self-reference is dotted gray;
      everything else is plain. */
  lemma EdgeStylePrecedence(source: string, column: string, target: string)
    ensures StyleOf(source, target) == PatientEdge <==> target == "patient"
    ensures StyleOf(source, target) == SelfEdge <==> target != "patient" && source == target
    ensures StyleOf(source, target) == PlainEdge <==> target != "patient" && source != target
    ensures EndsWith(EdgeLine(source, column, target), EdgeClose(StyleOf(source, target)))
  {
    var close := EdgeClose(StyleOf(source, target));
    var pre := "    " + source + ":" + column + " -> " + target + " [label=\"" + column;
    assert EdgeLine(source, column, target) == pre + close;
  }

  /** On the tables `parse_schema_xml` returns, every edge joins two of the
      tables used in the SQL queries. */
  lemma EdgesJoinSqlTables(doc: seq<XmlTable>, line: string)
    requires line in EdgeLines(SelectedTables(doc), TableNames(SelectedTables(doc)))
    ensures exists source, column, target :: source in SqlTables && target in SqlTables
                                             && line == EdgeLine(source, column, target)
  {
    var tables := SelectedTables(doc);
    EdgeSource(tables, TableNames(tables), line);
    var i, j :| DrawnAt(tables, TableNames(tables), i, j) && line == EdgeOf(tables[i].name, tables[i].foreignKeys[j]);
    var t := tables[i];
    ReturnedTableSelected(doc, t);
    var k :| 0 <= k < |doc| && Selected(doc[k]) && t == TableOf(doc[k]);
    ForeignKeyColumnsKept(doc[k].columns, t.foreignKeys[j]);
  }

}
