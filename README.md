# Open Dental schema extraction and rendering, in Dafny

This project models the two scripts that turn the Open Dental database
documentation into developer-facing artefacts:

- `src/schema_parser.py` reads an HTML schema dump. Each `<p>` section holds a
  header table (the table's bold name and a description row) and a column
  table. It extracts every table's columns, enum values, primary keys and
  foreign keys, and writes a Markdown reference. That reference has a table
  of contents grouped by initial letter and one section per table.
- `src/generate_erd.py` reads the XML schema. It keeps the tables used in the
  SQL queries and, in each, only the key columns. It then produces the
  Graphviz DOT text of their entity-relationship diagram.

The parsers take already-navigated input records instead of a DOM:

- An HTML section is a `Section`: its header and, when there is one, the rows
  of its column table.
- A row is the sequence of its cell texts.
- An XML table is an `XmlTable`: its `name` attribute, its summary text and
  its `column` records.

The module layout follows the program:

- `Text` (`text.dfy`): the pieces of Python's `str` and `re` both scripts rely
  on, and the code-point order behind `sorted()`.
- `SchemaParser` (`schema_parser.dfy`): the extraction half of
  `schema_parser.py`.
- `SchemaMarkdown` (`schema_markdown.dfy`): the Markdown writer. The output
  file is an `Output` object that records every `write` call in order.
- `GenerateErd` (`generate_erd.dfy`): `generate_erd.py`.
- `Wrappers` (`wrappers.dfy`): `Option`.

Each loop of the source is a Dafny `method` with its loop and invariants. It
is proved equal to a specification function, and the properties are proved
about that function.

Behaviour of the code that differs from what its documentation suggests:

- **`escape_markdown`.** Its comment lists the characters to escape. In the
  pattern, however, the character class ends at the first `]`, and the rest
  of the pattern is a sequence. A match is therefore one of
  `` \ ` * _ { } [ ``, then one or more `#`, then `-`, then any character but
  a newline, then `!`, then `]`. Only such a match gets a backslash, so on any
  text without `#` the function is the identity. The model implements that
  pattern (`SchemaParser.EscapeMarkdown`), and the Markdown writer uses it.
- **Primary keys.** Neither script applies a "first primary key wins" rule.
  `parse_table_section` lists every column whose description mentions
  "primary key" in any case. `parse_schema_xml` flags every column whose
  summary contains "Primary key".
- **Edges.** The ERD draws an edge whenever the target table is among the
  tables drawn. There is no target-column resolution and no check against the
  target's primary key.
- **Truncation.** Only the XML table summary is cut to its first sentence.
  Column descriptions are kept whole.

## Model

| member | source | states |
|---|---|---|
| Text.SortedSet | src/schema_parser.py:219 | `sorted()` of distinct strings: strictly increasing in code-point order, with exactly the given elements and as many of them |
| Text.SortedSetUnique | src/schema_parser.py:226 | any strictly increasing listing of the same strings is the sorted one, so the order of the output is determined |
| Text.JoinFraming | src/generate_erd.py:168 | `sep.join(lines)` starts with the first line and ends with the last |
| Text.JoinContains | src/generate_erd.py:145 | every joined element appears in the joined text |
| SchemaParser.CleanText | src/schema_parser.py:31-36 | `clean_text` keeps every non-whitespace character of its input, in order |
| SchemaParser.CleanTextIsClean | src/schema_parser.py:31-36 | `clean_text` output has no leading or trailing whitespace and no two adjacent whitespace characters, and its only whitespace is `' '` |
| SchemaParser.CleanTextIdempotent | src/schema_parser.py:31-36 | cleaning twice gives the same text as cleaning once |
| SchemaParser.CleanTextEmptyIff | src/schema_parser.py:31-36 | the cleaned text is empty exactly when the input is all whitespace |
| SchemaParser.CollapseShape | src/schema_parser.py:34 | `re.sub(r'\s+', ' ', ...)` leaves only single plain spaces, keeps every non-whitespace character in order, and starts with whitespace exactly when the input does |
| SchemaParser.CollapseFixesSpaced | src/schema_parser.py:34 | text that already has only single plain spaces is left unchanged by the substitution |
| SchemaParser.HashRun | src/schema_parser.py:42 | the `#+` part of the pattern: the length of the maximal run of `#` at the front |
| SchemaParser.MatchLength | src/schema_parser.py:42 | a match of the escape pattern is empty or at least 6 characters and within the text |
| SchemaParser.EscapeMarkdown | src/schema_parser.py:38-42 | `escape_markdown` never makes a text shorter |
| SchemaParser.EscapeMarkdownWithoutHash | src/schema_parser.py:38-42 | on any text without `#` the escape returns the text unchanged |
| SchemaParser.EscapeMarkdownOnlyInsertsBackslashes | src/schema_parser.py:38-42 | removing backslashes from the output gives the input with its backslashes removed: the escape only inserts backslashes |
| SchemaParser.EscapeMarkdownUnchangedIff | src/schema_parser.py:38-42 | the escape changes a text exactly when the pattern matches at some position of it, including positions inside an earlier match |
| SchemaParser.EscapeMarkdownLongerAtMatch | src/schema_parser.py:42 | a match at any position makes the output strictly longer than the input |
| SchemaParser.EscapeMarkdownShortUnchanged | src/schema_parser.py:38-42 | a match is at least six characters, so any text shorter than that, such as one listed character on its own, is returned unchanged |
| SchemaParser.EscapeMarkdownKeepsListedCharacters | src/schema_parser.py:40-42 | example: the text `a_b*c.d(e)+f!g-h`, made of characters the comment lists, comes back unchanged |
| SchemaParser.EscapeMarkdownMatchExample | src/schema_parser.py:42 | example: the match `*##-x!]` gets one backslash in front of it and is otherwise copied |
| SchemaParser.IdentRun | src/schema_parser.py:103 | `[a-z0-9_]+` after the keyword: the maximal run of identifier characters |
| SchemaParser.StripLeftSkips | src/schema_parser.py:103 | the `\s+` step: stripping leading whitespace lands on the first non-whitespace character |
| SchemaParser.FkMatchMeaning | src/schema_parser.py:103 | a match anchored at the start returns a reference of the form `fk to`, whitespace, and a maximal identifier run; no match means no position yields a reference |
| SchemaParser.FkMatchShape | src/schema_parser.py:103 | the anchored match succeeds exactly when at least one whitespace character and one identifier character follow `fk to` |
| SchemaParser.SearchFkLeftmost | src/schema_parser.py:103-105 | `re.search` succeeds exactly when some position matches, and its result is the match at the leftmost position that matches |
| SchemaParser.ForeignKeyReference | src/schema_parser.py:98-106 | a result is only returned when the lowercased description contains `fk to`, and it is a non-empty run of `[a-z0-9_]` |
| SchemaParser.ForeignKeyFound | src/schema_parser.py:101-105 | a found reference is an identifier and the searched text contains `fk to` |
| SchemaParser.ForeignKeyReferenceIsLeftmostMatch | src/schema_parser.py:98-106 | the result is the leftmost search over the lowercased description |
| SchemaParser.CollectEnumValues | src/schema_parser.py:59-67 | the loop over the sibling rows returns exactly the enum values of the specification |
| SchemaParser.ParseColumn | src/schema_parser.py:44-77 | `parse_column` returns the column of the specification, collecting enum values only after a description mentioning `enum:` |
| SchemaParser.ColumnOfFields | src/schema_parser.py:44-53 | no column exactly for rows with fewer than 4 cells or an empty stripped name; otherwise the name is non-empty, constraints is empty, the description is the cleaned cell 3 and enum values need `enum:` in any case |
| SchemaParser.EnumValuesClean | src/schema_parser.py:60-65 | at most one value per row, each non-empty and cleaned |
| SchemaParser.EnumValuesStopAt | src/schema_parser.py:62-67 | collection stops at the first row that is not a continuation row: nothing after it counts |
| SchemaParser.EnumValuesMembership | src/schema_parser.py:60-67 | a value is collected exactly when it is the non-empty cleaned cell 3 of a continuation row reached through continuation rows only; empty values are skipped without stopping |
| SchemaParser.PutSemantics | src/schema_parser.py:130 | a dictionary assignment keeps keys unique, appends a new key at the end, keeps an existing key's position and changes only that key's value |
| SchemaParser.LookupFindsKey | src/schema_parser.py:130 | a dictionary lookup succeeds exactly for its keys |
| SchemaParser.ParseTableSection | src/schema_parser.py:108-140 | `parse_table_section`, with the header extraction of lines 79-96, returns the specified outcome: no table, the assembled table, or the error raised by a second header row without a cell |
| SchemaParser.PrimaryKeysSplit | src/schema_parser.py:122-126 | the primary keys of consecutive rows are those of the first rows followed by those of the rest, so they keep row order |
| SchemaParser.PrimaryKeysAreAllFlagged | src/schema_parser.py:125-126 | a name is a primary key exactly when some column with that name mentions "primary key" in any case; every such column is listed |
| SchemaParser.ForeignKeysLastWins | src/schema_parser.py:128-130 | `foreign_keys` has unique keys, and each name maps to the reference of the last column with that name that has one |
| SchemaParser.SectionTableNamed | src/schema_parser.py:110-140 | a parsed table has a non-empty name and exactly the columns of the rows after the header row |
| SchemaParser.ParseSchema | src/schema_parser.py:154-160 | the section loop builds exactly the specified dictionary |
| SchemaParser.SchemaKeysAreNames | src/schema_parser.py:159-160 | every key of the result is non-empty and is the name of the table stored under it |
| SchemaParser.SchemaStep | src/schema_parser.py:157-160 | one more section adds its name exactly when it yields a table |
| SchemaParser.SchemaKeysYielded | src/schema_parser.py:154-160 | a name is a key exactly when some section with at least two tables yields a table of that name |
| SchemaParser.SchemaLastWins | src/schema_parser.py:154-160 | the table stored under a name is the one from the last section that yields that name |
| SchemaMarkdown.Output.constructor | src/schema_parser.py:211 | a freshly opened output has nothing written |
| SchemaMarkdown.Output.Write | src/schema_parser.py:182 | a write appends its text to what was written before |
| SchemaMarkdown.FormatDescription | src/schema_parser.py:170-177 | the cell starts with the escaped description, and it is exactly that when there are no enum values |
| SchemaMarkdown.FormatDescriptionListsValues | src/schema_parser.py:175-177 | with enum values, the cell has the `Enum values` heading and a bullet for every value |
| SchemaMarkdown.WriteColumnRow | src/schema_parser.py:190-191 | one `write` per column: its row of the Markdown table |
| SchemaMarkdown.WriteColumnRows | src/schema_parser.py:190-192 | one line written per column, in column order |
| SchemaMarkdown.WritePrimaryKeys | src/schema_parser.py:194-197 | the primary-key section is written as specified |
| SchemaMarkdown.WriteForeignKeyLine | src/schema_parser.py:202-203 | one `write` per foreign key: its bullet line with the link to the referenced table |
| SchemaMarkdown.WriteForeignKeys | src/schema_parser.py:199-204 | the foreign-key section is written as specified, in dictionary order |
| SchemaMarkdown.WriteTableHead | src/schema_parser.py:182-188 | the heading, the optional description and the two table-header lines are written |
| SchemaMarkdown.WriteTableTail | src/schema_parser.py:194-206 | the key sections and the closing blank line are written |
| SchemaMarkdown.WriteTableMarkdown | src/schema_parser.py:179-206 | `write_table_markdown` appends exactly the specified lines |
| SchemaMarkdown.TableLayout | src/schema_parser.py:179-206 | the heading comes first, the description second only when there is one, then the two header lines, exactly one row per column in order, and a closing blank line; the total number of lines is given |
| SchemaMarkdown.ColumnLineIsRow | src/schema_parser.py:191-192 | each column row starts with the escaped order cell, ends the table row, and holds the formatted description cell |
| SchemaMarkdown.PrimaryKeySectionIff | src/schema_parser.py:194-197 | the `Primary Keys` heading is written exactly when there are primary keys |
| SchemaMarkdown.ForeignKeySectionIff | src/schema_parser.py:199-204 | the `Foreign Keys` heading is written exactly when there are foreign keys |
| SchemaMarkdown.ForeignKeysLinked | src/schema_parser.py:201-204 | every foreign key gets a line that links to `#table-` and the lowercased referenced name |
| SchemaMarkdown.ForeignKeyLineLinks | src/schema_parser.py:202-203 | a foreign-key line ends with a link to `#table-` and the lowercased referenced name |
| SchemaMarkdown.GroupedByInitial | src/schema_parser.py:218-223 | every group is non-empty, holds only names with that uppercased initial, and every name is in the group of its initial |
| SchemaMarkdown.TocPartition | src/schema_parser.py:218-231 | letters come out sorted, every name lands in the group of its initial and only there, and each group is non-empty and sorted |
| SchemaMarkdown.GroupTableNames | src/schema_parser.py:218-223 | the grouping loop succeeds exactly when no name is empty, and then builds the specified groups |
| SchemaMarkdown.GroupsMatch | src/schema_parser.py:218-226 | the groups' letters are the initials of the table names, and each group holds exactly the names with that initial |
| SchemaMarkdown.NamesNonEmpty | src/schema_parser.py:219-220 | taking `table_name[0]` succeeds for all names exactly when the empty name is not a key |
| SchemaMarkdown.WriteLetter | src/schema_parser.py:227-232 | one letter's heading, one anchored entry per name, and a blank line |
| SchemaMarkdown.WriteLetters | src/schema_parser.py:226-232 | the letters' blocks are written in the order given |
| SchemaMarkdown.WriteToc | src/schema_parser.py:226-232 | the table of contents is written letter by letter in sorted order |
| SchemaMarkdown.WriteTables | src/schema_parser.py:237-238 | each table's text is written in the order given |
| SchemaMarkdown.GenerateMarkdown | src/schema_parser.py:208-244 | an empty table name stops output after the two titles (the `IndexError`); otherwise exactly the specified document is written |
| SchemaMarkdown.DocumentOrder | src/schema_parser.py:212-238 | the document opens with its title and the TOC title, and the table texts follow the rule in sorted name order |
| GenerateErd.FirstSentencePrefix | src/generate_erd.py:41 | `split('.')[0]` is the longest prefix without a full stop |
| GenerateErd.FirstSentenceStopsAtDot | src/generate_erd.py:41 | the first sentence of a text with a full stop is the text before it |
| GenerateErd.TableDescriptionExample | src/generate_erd.py:39-41 | "Stores patient info. See also billing." becomes "Stores patient info" |
| GenerateErd.CollectColumns | src/generate_erd.py:43-65 | the column loop produces exactly the specified columns and foreign keys |
| GenerateErd.ParseSchemaXml | src/generate_erd.py:13-74 | `parse_schema_xml` returns exactly the specified tables |
| GenerateErd.SelectedTablesSplit | src/generate_erd.py:33-72 | tables keep document order: the result for consecutive tables is the concatenation of the results |
| GenerateErd.SelectedTablesMembership | src/generate_erd.py:27-36 | a table is returned exactly when its name is non-empty and in `sql_tables`, and every returned name is one of them |
| GenerateErd.DuplicateTablesKept | src/generate_erd.py:33-72 | there is no de-duplication: a table that appears twice is returned twice |
| GenerateErd.KeptColumnsSplit | src/generate_erd.py:47-65 | columns and foreign keys keep column order |
| GenerateErd.UnusableColumnSkipped | src/generate_erd.py:47-51 | a column with an empty name or type contributes neither a column nor a foreign key |
| GenerateErd.KeptColumnsMembership | src/generate_erd.py:54-61 | a column is kept exactly when it has a name and a type and is a primary key or references a table in `sql_tables`; its flag is whether the summary contains "Primary key" |
| GenerateErd.ForeignKeysMembership | src/generate_erd.py:59-65 | the foreign keys are exactly the usable columns' `(name, fk)` pairs with `fk` in `sql_tables` |
| GenerateErd.ForeignKeyColumnsKept | src/generate_erd.py:59-65 | every foreign-key column also appears among the columns, and it references a table in `sql_tables` |
| GenerateErd.TwoPrimaryKeys | src/generate_erd.py:54-61 | several columns can be primary keys at once |
| GenerateErd.EscapeQuotesEscapes | src/generate_erd.py:134 | after `replace('"', '\\"')` every quote follows a backslash |
| GenerateErd.LabelDescriptionSafe | src/generate_erd.py:133-135 | a description in a label has no line break, and every quote in it is escaped |
| GenerateErd.ColumnCellMarksKeys | src/generate_erd.py:137-142 | ` (PK)` marks a primary-key column's field; any other field is only its port, name and type |
| GenerateErd.NodeLineShape | src/generate_erd.py:133-145 | a node line declares a record label that opens with the table name, and its fields start with `<desc>` exactly when there is a description |
| GenerateErd.NodeLineHasColumns | src/generate_erd.py:137-145 | every column's field appears in its table's node line |
| GenerateErd.LabelCells | src/generate_erd.py:132-142 | the label loop builds exactly the specified fields |
| GenerateErd.TableEdges | src/generate_erd.py:152-165 | the inner loop over one table's foreign keys emits exactly that table's specified edge lines |
| GenerateErd.CollectEdges | src/generate_erd.py:151-165 | the relationship loops emit exactly the specified edge lines |
| GenerateErd.GenerateDotErd | src/generate_erd.py:76-168 | `generate_dot_erd` returns the specified lines joined with newlines |
| GenerateErd.DotFraming | src/generate_erd.py:79-168 | the text starts with `digraph ERD {` and ends with `}` |
| GenerateErd.DotLayout | src/generate_erd.py:129-148 | after the fixed preamble there is one node line per table, in input order, then the relationships comment |
| GenerateErd.EdgesOfMembership | src/generate_erd.py:152-165 | one table's edges are exactly its foreign keys whose target is among the table names |
| GenerateErd.EdgeLinesMembership | src/generate_erd.py:151-165 | an edge line is emitted exactly for a table's foreign key whose target is the name of one of the tables |
| GenerateErd.DuplicateEdgesKept | src/generate_erd.py:151-165 | there is no de-duplication: two foreign keys to the same target give two edges |
| GenerateErd.EdgeStylePrecedence | src/generate_erd.py:156-164 | a `patient` target is dashed blue even for a self-reference; otherwise a self-reference is dotted gray; everything else is plain |
| GenerateErd.EdgesJoinSqlTables | src/generate_erd.py:27-165 | on parsed tables, every edge joins two tables in `sql_tables` |

## Left out

- HTML and XML navigation (`BeautifulSoup.find_all`, `find`, `find_next_siblings`, `ET.parse`, `findall('.//...')`) is not modelled. The parsers take the navigated records: cell texts, header parts and attribute values.
- File reading and writing, `Path.mkdir`, the Graphviz `subprocess.run` call, `main` and the command-line checks are not modelled. Output is modelled as the sequence of written strings.
- Logging is not modelled. A `parse_schema` section that raises is skipped, as its `except` does. The outer handlers that log and re-raise are not modelled.
- `IsSpace` is the fixed set of characters `str.isspace` accepts. `str.lower()` and `str.upper()` are modelled on ASCII letters only. Unicode case mapping is not modelled.
- Text.SortedSet: models `sorted()` only for distinct strings, which is all the source sorts (dictionary keys). For letters sorted in the table of contents it compares single-character strings.
- SchemaMarkdown.GenerateMarkdown: an empty table name raises `IndexError` after the two titles are written. The model returns `false` at that point and does not model the exception or the logging around it.
- `find_next_siblings('tr')` is modelled as every later row of the column table's `find_all('tr')` list (`SchemaParser.ColumnsIn`). The two differ when a table is nested in a cell or when the rows are split between `<thead>` and `<tbody>`; the model does not capture those layouts.
- The remaining regular-expression machinery is not modelled. Only the three patterns used (`\s+`, the escape pattern and `fk to\s+([a-z0-9_]+)`) are implemented as scanners.
- The Graphviz cluster lines are a constant preamble. They are reproduced line for line, and no property beyond their position is stated.
