/** The rendering half of `schema_parser.py`: the Markdown reference written
    for the parsed tables, as the sequence of texts passed to `f.write`. */
module SchemaMarkdown {
  import opened Text
  import opened SchemaParser

  /** The open output file: every text written to it, in order. */
  class Output {
    var writes: seq<string>

    constructor ()
      ensures writes == []
    {
      writes := [];
    }

    /** `f.write(s)`. */
    method Write(s: string)
      modifies this
      ensures writes == old(writes) + [s]
    {
      writes := writes + [s];
    }
  }

  // ---------------------------------------------------------------------------
  // format_description_for_table

  const EnumHeading := "<br><br>**Enum values:**<br>"

  /** One bulleted enum value. */
  function EnumItem(value: string): string {
    "\U{2022} " + EscapeMarkdown(value)
  }

  function EnumItems(values: seq<string>): seq<string> {
    seq(|values|, i requires 0 <= i < |values| => EnumItem(values[i]))
  }

  /** The description cell: the escaped description, then the enum block
      exactly when there are enum values. */
  function FormatDescription(description: string, enumValues: seq<string>): (r: string)
    ensures StartsWith(r, EscapeMarkdown(description))
    ensures enumValues == [] <==> r == EscapeMarkdown(description)
  {
    if enumValues == [] then EscapeMarkdown(description)
    else EscapeMarkdown(description) + EnumHeading + Join("<br>", EnumItems(enumValues))
  }

  /** Every enum value appears, escaped and bulleted, in the cell. */
  lemma FormatDescriptionListsValues(description: string, enumValues: seq<string>, i: nat)
    requires i < |enumValues|
    ensures Contains(FormatDescription(description, enumValues), EnumItem(enumValues[i]))
    ensures Contains(FormatDescription(description, enumValues), EnumHeading)
  {
    var items := EnumItems(enumValues);
    assert items[i] == EnumItem(enumValues[i]);
    JoinContains("<br>", items, i);
    assert OccursAt(EnumHeading, EnumHeading, 0);
    ContainsInAppend(EscapeMarkdown(description), EnumHeading, EnumHeading);
    ContainsInAppend(EscapeMarkdown(description) + EnumHeading, Join("<br>", items), EnumItem(enumValues[i]));
    ContainsInAppend(EscapeMarkdown(description) + EnumHeading, Join("<br>", items), EnumHeading);
  }

  // ---------------------------------------------------------------------------
  // write_table_markdown

  const ColumnHeader := "| Order | Column Name | Data Type | Constraints | Description |\n"
  const ColumnRule := "|-------|-------------|-----------|-------------|-------------|\n"
  const PrimaryKeysHeading := "\n### Primary Keys\n"
  const ForeignKeysHeading := "\n### Foreign Keys\n"

  /** The link target of a table's heading. */
  function Anchor(name: string): string {
    "table-" + Lower(name)
  }

  function TableHeading(name: string): string {
    "## Table: " + EscapeMarkdown(name) + "\n\n"
  }

  function DescriptionWrites(description: string): seq<string> {
    if description != "" then [EscapeMarkdown(description) + "\n\n"] else []
  }

  /** The table row of one column. */
  function ColumnLine(c: Column): string {
    "| " + EscapeMarkdown(c.order) + " | "
    + (EscapeMarkdown(c.name) + " | " + EscapeMarkdown(c.dataType) + " | " + EscapeMarkdown(c.constraints) + " | "
       + FormatDescription(c.description, c.enumValues))
    + " |\n"
  }

  function ColumnLines(columns: seq<Column>): seq<string> {
    Map(ColumnLine, columns)
  }

  function PrimaryKeyLine(pk: string): string {
    "- " + EscapeMarkdown(pk) + "\n"
  }

  function PrimaryKeyLines(pks: seq<string>): seq<string> {
    Map(PrimaryKeyLine, pks)
  }

  function PrimaryKeyWrites(pks: seq<string>): seq<string> {
    if pks == [] then [] else [PrimaryKeysHeading] + PrimaryKeyLines(pks)
  }

  /** The line for `column` referencing `reference`, linked to its heading. */
  function ForeignKeyLine(column: string, reference: string): string {
    "- " + EscapeMarkdown(column) + " \U{2192} [" + EscapeMarkdown(reference) + "](#" + Anchor(reference) + ")\n"
  }

  /** The line of one `(column, reference)` entry. */
  function EntryLine(entry: (string, string)): string {
    ForeignKeyLine(entry.0, entry.1)
  }

  function ForeignKeyLines(fks: Dict): seq<string> {
    Map(EntryLine, fks)
  }

  function ForeignKeyWrites(fks: Dict): seq<string> {
    if fks == [] then [] else [ForeignKeysHeading] + ForeignKeyLines(fks)
  }

  /** What precedes the column rows: the heading, the description when there
      is one, and the two header lines of the Markdown table. */
  function TableHead(name: string, t: Table): seq<string> {
    [TableHeading(name)] + DescriptionWrites(t.description) + [ColumnHeader, ColumnRule]
  }

  /** What follows the column rows: the key sections and a blank line. */
  function TableTail(t: Table): seq<string> {
    PrimaryKeyWrites(t.primaryKeys) + ForeignKeyWrites(t.foreignKeys) + ["\n"]
  }

  /** The texts `write_table_markdown` writes for one table, in order. */
  function TableWrites(name: string, t: Table): seq<string> {
    TableHead(name, t) + ColumnLines(t.columns) + TableTail(t)
  }

  /** One row of the column table. */
  method WriteColumnRow(f: Output, column: Column)
    modifies f
    ensures f.writes == old(f.writes) + [ColumnLine(column)]
  {
    var description := FormatDescription(column.description, column.enumValues);
    f.Write("| " + EscapeMarkdown(column.order) + " | "
            + (EscapeMarkdown(column.name) + " | " + EscapeMarkdown(column.dataType) + " | "
               + EscapeMarkdown(column.constraints) + " | " + description)
            + " |\n");
  }

  method WriteColumnRows(f: Output, columns: seq<Column>)
    modifies f
    ensures f.writes == old(f.writes) + ColumnLines(columns)
  {
    ghost var start := f.writes;
    for i := 0 to |columns|
      invariant f.writes == start + ColumnLines(columns[..i])
    {
      WriteColumnRow(f, columns[i]);
      MapStep(ColumnLine, columns, i);
      AppendAssoc(start, ColumnLines(columns[..i]), [ColumnLine(columns[i])]);
    }
    assert columns[..|columns|] == columns;
  }

  method WritePrimaryKeys(f: Output, pks: seq<string>)
    modifies f
    ensures f.writes == old(f.writes) + PrimaryKeyWrites(pks)
  {
    if pks != [] {
      f.Write("\n### Primary Keys\n");
      ghost var start := f.writes;
      for i := 0 to |pks|
        invariant f.writes == start + PrimaryKeyLines(pks[..i])
      {
        f.Write("- " + EscapeMarkdown(pks[i]) + "\n");
        MapStep(PrimaryKeyLine, pks, i);
        AppendAssoc(start, PrimaryKeyLines(pks[..i]), [PrimaryKeyLine(pks[i])]);
      }
      assert pks[..|pks|] == pks;
    }
  }

  /** One line of the foreign key section. */
  method WriteForeignKeyLine(f: Output, column: string, reference: string)
    modifies f
    ensures f.writes == old(f.writes) + [ForeignKeyLine(column, reference)]
  {
    var refAnchor := "table-" + Lower(reference);
    f.Write("- " + EscapeMarkdown(column) + " \U{2192} [" + EscapeMarkdown(reference) + "](#" + refAnchor + ")\n");
  }

  method WriteForeignKeys(f: Output, fks: Dict)
    modifies f
    ensures f.writes == old(f.writes) + ForeignKeyWrites(fks)
  {
    if fks != [] {
      f.Write("\n### Foreign Keys\n");
      ghost var start := f.writes;
      for i := 0 to |fks|
        invariant f.writes == start + ForeignKeyLines(fks[..i])
      {
        var (column, reference) := fks[i];
        WriteForeignKeyLine(f, column, reference);
        MapStep(EntryLine, fks, i);
        AppendAssoc(start, ForeignKeyLines(fks[..i]), [EntryLine(fks[i])]);
      }
      assert fks[..|fks|] == fks;
    }
  }

  /** The heading, the description and the two header lines. */
  method WriteTableHead(f: Output, name: string, t: Table)
    modifies f
    ensures f.writes == old(f.writes) + TableHead(name, t)
  {
    f.Write("## Table: " + EscapeMarkdown(name) + "\n\n");
    if t.description != "" {
      f.Write(EscapeMarkdown(t.description) + "\n\n");
    }
    f.Write("| Order | Column Name | Data Type | Constraints | Description |\n");
    f.Write("|-------|-------------|-----------|-------------|-------------|\n");
  }

  /** The key sections and the closing blank line. */
  method WriteTableTail(f: Output, t: Table)
    modifies f
    ensures f.writes == old(f.writes) + TableTail(t)
  {
    WritePrimaryKeys(f, t.primaryKeys);
    WriteForeignKeys(f, t.foreignKeys);
    f.Write("\n");
  }

  /** `write_table_markdown`. */
  method WriteTableMarkdown(f: Output, name: string, t: Table)
    modifies f
    ensures f.writes == old(f.writes) + TableWrites(name, t)
  {
    ghost var start := f.writes;
    WriteTableHead(f, name, t);
    WriteColumnRows(f, t.columns);
    WriteTableTail(f, t);
    AppendAssoc(start, TableHead(name, t), ColumnLines(t.columns));
    AppendAssoc(start, TableHead(name, t) + ColumnLines(t.columns), TableTail(t));
  }

  /** Where each part of a table's text sits: the heading first, then the
      optional description, the two header lines, then exactly one row per
      column in column order, then the key sections and a closing blank line. */
  lemma TableLayout(name: string, t: Table)
    ensures var h := if t.description != "" then 4 else 3;
      var ws := TableWrites(name, t);
      && |ws| == h + |t.columns|
                 + (if t.primaryKeys == [] then 0 else 1 + |t.primaryKeys|)
                 + (if t.foreignKeys == [] then 0 else 1 + |t.foreignKeys|) + 1
      && ws[0] == TableHeading(name)
      && (t.description != "" ==> ws[1] == EscapeMarkdown(t.description) + "\n\n")
      && ws[h - 2] == ColumnHeader && ws[h - 1] == ColumnRule
      && ws[h..h + |t.columns|] == ColumnLines(t.columns)
      && ws[|ws| - 1] == "\n"
  {
    var head := TableHead(name, t);
    var rows := ColumnLines(t.columns);
    var ws := TableWrites(name, t);
    assert ws[|head|..|head| + |rows|] == rows;
  }

  /** Each column row is one line of the Markdown table. */
  lemma ColumnLineIsRow(c: Column)
    ensures StartsWith(ColumnLine(c), "| " + EscapeMarkdown(c.order) + " | ")
    ensures EndsWith(ColumnLine(c), " |\n")
    ensures Contains(ColumnLine(c), FormatDescription(c.description, c.enumValues))
  {
    var x := "| " + EscapeMarkdown(c.order) + " | ";
    var y := EscapeMarkdown(c.name) + " | " + EscapeMarkdown(c.dataType) + " | " + EscapeMarkdown(c.constraints) + " | ";
    var d := FormatDescription(c.description, c.enumValues);
    PrefixOfAppend(x, y + d);
    StartsWithAppend(x + (y + d), " |\n", x);
    SuffixOfAppend(x + (y + d), " |\n");
    ContainsSuffix(y, d);
    ContainsInAppend(x, y + d, d);
    ContainsInAppend(x + (y + d), " |\n", d);
  }

  lemma ColumnLineStart(c: Column)
    ensures |ColumnLine(c)| > 0 && ColumnLine(c)[0] == '|'
  {
    ColumnLineIsRow(c);
  }

  lemma TableHeadingStart(name: string)
    ensures |TableHeading(name)| > 0 && TableHeading(name)[0] == '#'
  {
  }

  lemma DescriptionEnd(description: string, w: string)
    requires w in DescriptionWrites(description)
    ensures |w| >= 2 && w[|w| - 2] == '\n'
  {
    assert w == EscapeMarkdown(description) + "\n\n";
  }

  /** No text that can precede or follow the key sections is a section
      heading: column rows start with `|`, the table heading with `#`, the
      description ends with a blank line. */
  lemma NotAHeading(name: string, t: Table, w: string)
    requires w in TableHead(name, t) + ColumnLines(t.columns) + ["\n"]
    ensures w != PrimaryKeysHeading && w != ForeignKeysHeading
  {
    if w in ColumnLines(t.columns) {
      var i :| 0 <= i < |t.columns| && ColumnLines(t.columns)[i] == w;
      MapIndex(ColumnLine, t.columns, i);
      ColumnLineStart(t.columns[i]);
    } else if w in DescriptionWrites(t.description) {
      DescriptionEnd(t.description, w);
    } else if w == TableHeading(name) {
      TableHeadingStart(name);
    }
  }

  /** The "Primary Keys" heading is written exactly when there are primary keys. */
  lemma PrimaryKeySectionIff(name: string, t: Table)
    ensures PrimaryKeysHeading in TableWrites(name, t) <==> t.primaryKeys != []
  {
    var ws := TableWrites(name, t);
    var before := TableHead(name, t) + ColumnLines(t.columns);
    TableWritesParts(name, t);
    if t.primaryKeys != [] {
      assert ws[|before|] == PrimaryKeysHeading;
    } else if PrimaryKeysHeading in ws {
      var k :| 0 <= k < |ws| && ws[k] == PrimaryKeysHeading;
      if k < |before| {
        assert before[k] in before + ["\n"];
        NotAHeading(name, t, before[k]);
      } else if k < |ws| - 1 {
        ForeignKeyWritesShape(t.foreignKeys, k - |before|);
      }
    }
  }

  /** The "Foreign Keys" heading is written exactly when there are foreign keys. */
  lemma ForeignKeySectionIff(name: string, t: Table)
    ensures ForeignKeysHeading in TableWrites(name, t) <==> t.foreignKeys != []
  {
    var ws := TableWrites(name, t);
    var before := TableHead(name, t) + ColumnLines(t.columns);
    var keys := PrimaryKeyWrites(t.primaryKeys);
    TableWritesParts(name, t);
    if t.foreignKeys != [] {
      assert ws[|before| + |keys|] == ForeignKeysHeading;
    } else if ForeignKeysHeading in ws {
      var k :| 0 <= k < |ws| && ws[k] == ForeignKeysHeading;
      if k < |before| {
        assert before[k] in before + ["\n"];
        NotAHeading(name, t, before[k]);
      } else if k < |before| + |keys| {
        PrimaryKeyWritesShape(t.primaryKeys, k - |before|);
      }
    }
  }

  lemma PrimaryKeyWritesShape(pks: seq<string>, k: nat)
    requires k < |PrimaryKeyWrites(pks)|
    ensures PrimaryKeyWrites(pks)[k] != ForeignKeysHeading
  {
    if k > 0 {
      MapIndex(PrimaryKeyLine, pks, k - 1);
      assert PrimaryKeyWrites(pks)[k][0] == '-';
    }
  }

  lemma ForeignKeyWritesShape(fks: Dict, k: nat)
    requires k < |ForeignKeyWrites(fks)|
    ensures ForeignKeyWrites(fks)[k] != PrimaryKeysHeading
  {
    if k > 0 {
      MapIndex(EntryLine, fks, k - 1);
      assert ForeignKeyWrites(fks)[k][0] == '-';
    }
  }

  /** The parts of a table's text around its key sections. */
  lemma TableWritesParts(name: string, t: Table)
    ensures TableWrites(name, t)
         == (TableHead(name, t) + ColumnLines(t.columns) + PrimaryKeyWrites(t.primaryKeys))
            + ForeignKeyWrites(t.foreignKeys) + ["\n"]
  {
    var before := TableHead(name, t) + ColumnLines(t.columns);
    var pks := PrimaryKeyWrites(t.primaryKeys);
    var fks := ForeignKeyWrites(t.foreignKeys);
    AppendAssoc(before, pks + fks, ["\n"]);
    AppendAssoc(before, pks, fks);
  }

  /** A foreign-key line links to `#table-` and the lowercased referenced name. */
  lemma ForeignKeyLineLinks(column: string, reference: string)
    ensures EndsWith(ForeignKeyLine(column, reference), "](#table-" + Lower(reference) + ")\n")
  {
    var tail := "](#table-" + Lower(reference) + ")\n";
    var pre := "- " + EscapeMarkdown(column) + " \U{2192} [" + EscapeMarkdown(reference);
    assert ForeignKeyLine(column, reference) == pre + tail;
  }

  lemma ForeignKeyLineWritten(fks: Dict, i: nat)
    requires i < |fks|
    ensures ForeignKeyLine(fks[i].0, fks[i].1) in ForeignKeyWrites(fks)
  {
    MapIndex(EntryLine, fks, i);
    assert ForeignKeyWrites(fks)[1 + i] == ForeignKeyLine(fks[i].0, fks[i].1);
  }

  /** Every foreign key gets its own line, in dictionary order, linking to
      `#table-` and the lowercased referenced name. */
  lemma ForeignKeysLinked(name: string, t: Table, i: nat)
    requires i < |t.foreignKeys|
    ensures ForeignKeyLine(t.foreignKeys[i].0, t.foreignKeys[i].1) in TableWrites(name, t)
    ensures EndsWith(ForeignKeyLine(t.foreignKeys[i].0, t.foreignKeys[i].1),
                     "](#table-" + Lower(t.foreignKeys[i].1) + ")\n")
  {
    TableWritesParts(name, t);
    ForeignKeyLineWritten(t.foreignKeys, i);
    ForeignKeyLineLinks(t.foreignKeys[i].0, t.foreignKeys[i].1);
  }

  // ---------------------------------------------------------------------------
  // generate_markdown

  const DocumentTitle := "# Database Schema\n\n"
  const TocTitle := "## Table of Contents\n\n"
  const TocRule := "---\n\n"

  /** `table_name[0].upper()`: the key of the name's group. */
  function Initial(name: string): string
    requires name != ""
  {
    [UpperChar(name[0])]
  }

  ghost predicate NonEmptyNames(names: seq<string>) {
    forall i :: 0 <= i < |names| ==> names[i] != ""
  }

  /** `grouped_tables` after the loop has seen `names`: each initial maps to
      the names with that initial, in the order they were seen. */
  function Grouped(names: seq<string>): map<string, seq<string>>
    requires NonEmptyNames(names)
  {
    if names == [] then map[]
    else
      var g := Grouped(names[..|names| - 1]);
      var n := names[|names| - 1];
      var l := Initial(n);
      g[l := (if l in g then g[l] else []) + [n]]
  }

  /** The grouping puts every name into the group of its initial and nowhere
      else, and makes no empty group. */
  lemma {:induction false} GroupedByInitial(names: seq<string>)
    requires NonEmptyNames(names)
    ensures forall l :: l in Grouped(names) ==> Grouped(names)[l] != []
    ensures forall l, n :: l in Grouped(names) && n in Grouped(names)[l] ==> n in names && n != "" && l == Initial(n)
    ensures forall n :: n in names ==> n != "" && Initial(n) in Grouped(names) && n in Grouped(names)[Initial(n)]
  {
    if names != [] {
      var init := names[..|names| - 1];
      GroupedByInitial(init);
      var last := names[|names| - 1];
      assert names == init + [last];
      var l0 := Initial(last);
      var g := Grouped(init);
      assert Grouped(names) == g[l0 := (if l0 in g then g[l0] else []) + [last]];
      forall n | n in names ensures n != "" && Initial(n) in Grouped(names) && n in Grouped(names)[Initial(n)] {
        if n != last {
          var k :| 0 <= k < |names| && names[k] == n;
          assert init[k] == n;
        }
      }
    }
  }

  /** The initials of the names, sorted: the TOC's letter headings. */
  function Letters(names: set<string>): seq<string>
    requires "" !in names
  {
    SortedSet(set n | n in names :: Initial(n))
  }

  /** The names with initial `l`, sorted. */
  function GroupOf(names: set<string>, l: string): seq<string>
    requires "" !in names
  {
    SortedSet(set n | n in names && Initial(n) == l)
  }

  /** Every name is listed under exactly one letter, its initial; letters and
      the names under each are in sorted order and no letter is empty. */
  lemma TocPartition(names: set<string>)
    requires "" !in names
    ensures StrictlySorted(Letters(names))
    ensures forall n :: n in names ==> Initial(n) in Letters(names) && n in GroupOf(names, Initial(n))
    ensures forall l, n :: n in GroupOf(names, l) ==> n in names && l == Initial(n)
    ensures forall l :: l in Letters(names) ==> GroupOf(names, l) != [] && StrictlySorted(GroupOf(names, l))
  {
    forall l | l in Letters(names) ensures GroupOf(names, l) != [] {
      var n :| n in names && Initial(n) == l;
      assert n in set n | n in names && Initial(n) == l;
      assert n in GroupOf(names, l);
    }
  }

  function TocEntry(name: string): string {
    "- [" + EscapeMarkdown(name) + "](#" + Anchor(name) + ")\n"
  }

  function TocEntries(group: seq<string>): seq<string> {
    seq(|group|, i requires 0 <= i < |group| => TocEntry(group[i]))
  }

  function LetterWrites(names: set<string>, l: string): seq<string>
    requires "" !in names
  {
    ["### " + l + "\n"] + TocEntries(GroupOf(names, l)) + ["\n"]
  }

  /** The TOC texts for the letters `letters`, in order. */
  function TocWrites(names: set<string>, letters: seq<string>): seq<string>
    requires "" !in names
  {
    if letters == [] then []
    else TocWrites(names, letters[..|letters| - 1]) + LetterWrites(names, letters[|letters| - 1])
  }

  /** The texts of the tables `order`, one table after another. */
  function TablesWrites(tables: map<string, Table>, order: seq<string>): seq<string>
    requires forall n :: n in order ==> n in tables
  {
    if order == [] then []
    else TablesWrites(tables, order[..|order| - 1]) + TableWrites(order[|order| - 1], tables[order[|order| - 1]])
  }

  /** The whole document for tables whose names are all non-empty. */
  function DocumentWrites(tables: map<string, Table>): seq<string>
    requires "" !in tables
  {
    [DocumentTitle, TocTitle] + TocWrites(tables.Keys, Letters(tables.Keys)) + [TocRule]
    + TablesWrites(tables, SortedSet(tables.Keys))
  }

  /** The grouping loop of `generate_markdown` over the sorted names. It
      stops at the first empty name, where `table_name[0]` raises. */
  method GroupTableNames(names: seq<string>) returns (grouped: map<string, seq<string>>, ok: bool)
    ensures ok <==> NonEmptyNames(names)
    ensures ok ==> grouped == Grouped(names)
  {
    grouped := map[];
    for i := 0 to |names|
      invariant NonEmptyNames(names[..i])
      invariant grouped == Grouped(names[..i])
    {
      var name := names[i];
      if name == "" {
        return grouped, false;
      }
      var firstLetter := [UpperChar(name[0])];
      if firstLetter !in grouped {
        grouped := grouped[firstLetter := []];
      }
      grouped := grouped[firstLetter := grouped[firstLetter] + [name]];
      assert names[..i + 1][..i] == names[..i];
    }
    assert names[..|names|] == names;
    ok := true;
  }

  /** The heading of one letter and its entries. */
  method WriteLetter(f: Output, letter: string, group: seq<string>)
    modifies f
    ensures f.writes == old(f.writes) + (["### " + letter + "\n"] + TocEntries(group) + ["\n"])
  {
    ghost var initial := f.writes;
    f.Write("### " + letter + "\n");
    ghost var start := f.writes;
    for k := 0 to |group|
      invariant f.writes == start + TocEntries(group[..k])
    {
      var anchor := "table-" + Lower(group[k]);
      f.Write("- [" + EscapeMarkdown(group[k]) + "](#" + anchor + ")\n");
      assert TocEntries(group[..k + 1]) == TocEntries(group[..k]) + [TocEntry(group[k])];
    }
    assert group[..|group|] == group;
    f.Write("\n");
    AppendAssoc(initial, ["### " + letter + "\n"], TocEntries(group));
    AppendAssoc(initial, ["### " + letter + "\n"] + TocEntries(group), ["\n"]);
  }

  lemma TocWritesStep(keys: set<string>, letters: seq<string>, j: nat)
    requires "" !in keys && j < |letters|
    ensures TocWrites(keys, letters[..j + 1]) == TocWrites(keys, letters[..j]) + LetterWrites(keys, letters[j])
  {
    assert letters[..j + 1][..j] == letters[..j];
  }

  lemma TablesWritesStep(tables: map<string, Table>, names: seq<string>, i: nat)
    requires forall n :: n in names ==> n in tables
    requires i < |names|
    ensures TablesWrites(tables, names[..i + 1])
         == TablesWrites(tables, names[..i]) + TableWrites(names[i], tables[names[i]])
  {
    assert names[..i + 1][..i] == names[..i];
  }

  /** The TOC loop over the letters `letters`. */
  method WriteLetters(f: Output, grouped: map<string, seq<string>>, letters: seq<string>, ghost keys: set<string>)
    requires "" !in keys
    requires forall l :: l in letters ==> l in grouped && (set n | n in grouped[l]) == set n | n in keys && Initial(n) == l
    modifies f
    ensures f.writes == old(f.writes) + TocWrites(keys, letters)
  {
    ghost var start := f.writes;
    for j := 0 to |letters|
      invariant f.writes == start + TocWrites(keys, letters[..j])
    {
      var letter := letters[j];
      var group := SortedSet(set n | n in grouped[letter]);
      assert group == GroupOf(keys, letter);
      ghost var added := LetterWrites(keys, letter);
      WriteLetter(f, letter, group);
      TocWritesStep(keys, letters, j);
      AppendAssoc(start, TocWrites(keys, letters[..j]), added);
    }
    assert letters[..|letters|] == letters;
  }

  /** The table of contents: `grouped`'s letters in sorted order. */
  method WriteToc(f: Output, grouped: map<string, seq<string>>, ghost names: seq<string>, ghost keys: set<string>)
    requires NonEmptyNames(names) && "" !in keys && grouped == Grouped(names)
    requires forall n :: n in names <==> n in keys
    modifies f
    ensures f.writes == old(f.writes) + TocWrites(keys, Letters(keys))
  {
    GroupsMatch(names, keys);
    var letters := SortedSet(grouped.Keys);
    assert letters == Letters(keys);
    WriteLetters(f, grouped, letters, keys);
  }

  /** The final loop over the sorted names. */
  method WriteTables(f: Output, tables: map<string, Table>, names: seq<string>)
    requires forall n :: n in names ==> n in tables
    modifies f
    ensures f.writes == old(f.writes) + TablesWrites(tables, names)
  {
    ghost var start := f.writes;
    for i := 0 to |names|
      invariant f.writes == start + TablesWrites(tables, names[..i])
    {
      ghost var added := TableWrites(names[i], tables[names[i]]);
      WriteTableMarkdown(f, names[i], tables[names[i]]);
      TablesWritesStep(tables, names, i);
      AppendAssoc(start, TablesWrites(tables, names[..i]), added);
    }
    assert names[..|names|] == names;
  }

  /** `generate_markdown` writing into an open file. A name that is the empty
      string makes `table_name[0]` raise: `ok` is false and only the two
      titles have been written. */
  method GenerateMarkdown(f: Output, tables: map<string, Table>) returns (ok: bool)
    modifies f
    ensures ok <==> "" !in tables
    ensures !ok ==> f.writes == old(f.writes) + [DocumentTitle, TocTitle]
    ensures ok ==> f.writes == old(f.writes) + DocumentWrites(tables)
  {
    ghost var start := f.writes;
    f.Write("# Database Schema\n\n");
    f.Write("## Table of Contents\n\n");
    var names := SortedSet(tables.Keys);
    var grouped;
    grouped, ok := GroupTableNames(names);
    NamesNonEmpty(names, tables.Keys);
    if !ok {
      return;
    }
    ghost var titles := [DocumentTitle, TocTitle];
    assert f.writes == start + titles;
    WriteToc(f, grouped, names, tables.Keys);
    ghost var toc := TocWrites(tables.Keys, Letters(tables.Keys));
    f.Write("---\n\n");
    ghost var ruled := f.writes;
    WriteTables(f, tables, names);
    AppendAssoc(start, titles, toc);
    AppendAssoc(start, titles + toc, [TocRule]);
    assert ruled == start + (titles + toc + [TocRule]);
    AppendAssoc(start, [DocumentTitle, TocTitle] + toc + [TocRule], TablesWrites(tables, names));
  }

  lemma NamesNonEmpty(names: seq<string>, keys: set<string>)
    requires forall n :: n in names <==> n in keys
    ensures NonEmptyNames(names) <==> "" !in keys
  {
    if "" in keys {
      var i :| 0 <= i < |names| && names[i] == "";
    }
  }

  lemma GroupLetters(names: seq<string>, keys: set<string>)
    requires NonEmptyNames(names) && "" !in keys
    requires forall n :: n in names <==> n in keys
    ensures Grouped(names).Keys == set n | n in keys :: Initial(n)
  {
    GroupedByInitial(names);
    var g := Grouped(names);
    forall l | l in (set n | n in keys :: Initial(n)) ensures l in g {
      var n :| n in keys && Initial(n) == l;
      assert n in names;
    }
    forall l | l in g ensures l in (set n | n in keys :: Initial(n)) {
      var n := g[l][0];
      assert n in g[l];
      assert n in keys;
    }
  }

  lemma GroupContents(names: seq<string>, keys: set<string>, l: string)
    requires NonEmptyNames(names) && "" !in keys
    requires forall n :: n in names <==> n in keys
    requires l in Grouped(names)
    ensures (set n | n in Grouped(names)[l]) == set n | n in keys && Initial(n) == l
  {
    GroupedByInitial(names);
    var g := Grouped(names);
    forall n | n in keys && Initial(n) == l ensures n in g[l] {
      assert n in names;
    }
  }

  /** The grouping loop's map has the initials of `keys` as its keys and
      holds, under each letter, exactly the names of `GroupOf`. */
  lemma GroupsMatch(names: seq<string>, keys: set<string>)
    requires NonEmptyNames(names) && "" !in keys
    requires forall n :: n in names <==> n in keys
    ensures Grouped(names).Keys == set n | n in keys :: Initial(n)
    ensures forall l :: l in Grouped(names) ==> (set n | n in Grouped(names)[l]) == set n | n in keys && Initial(n) == l
  {
    GroupLetters(names, keys);
    forall l | l in Grouped(names)
      ensures (set n | n in Grouped(names)[l]) == set n | n in keys && Initial(n) == l
    {
      GroupContents(names, keys, l);
    }
  }

  /** The document opens with its title and the TOC title, and the table
      texts follow the TOC rule in sorted name order. */
  lemma DocumentOrder(tables: map<string, Table>)
    requires "" !in tables
    ensures var ws := DocumentWrites(tables);
      var tocLen := |TocWrites(tables.Keys, Letters(tables.Keys))|;
      && ws[0] == DocumentTitle && ws[1] == TocTitle && ws[2 + tocLen] == TocRule
      && ws[3 + tocLen..] == TablesWrites(tables, SortedSet(tables.Keys))
      && StrictlySorted(SortedSet(tables.Keys))
  {
  }
}
