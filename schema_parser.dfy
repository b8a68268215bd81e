/** The extraction half of `schema_parser.py`: an HTML schema dump, already
    split by the HTML parser into sections, tables, rows and cell texts, becomes
    a dictionary of tables with their columns, primary keys and foreign keys. */
module SchemaParser {
  import opened Wrappers
  import opened Text

  // ---------------------------------------------------------------------------
  // clean_text

  /** The characters of `s` that are not whitespace, in order. */
  function NonSpace(s: string): string {
    if s == [] then [] else (if IsSpace(s[0]) then [] else [s[0]]) + NonSpace(s[1..])
  }

  ghost predicate OnlyPlainSpaces(s: string) {
    forall i :: 0 <= i < |s| && IsSpace(s[i]) ==> s[i] == ' '
  }

  ghost predicate NoDoubleSpace(s: string) {
    forall i, j :: 0 <= i < j < |s| && j == i + 1 ==> !(IsSpace(s[i]) && IsSpace(s[j]))
  }

  /** The shape `clean_text` promises: single plain spaces between words and
      nothing to strip at either end. */
  ghost predicate IsClean(s: string) {
    OnlyPlainSpaces(s) && NoDoubleSpace(s) && (s == [] || (!IsSpace(s[0]) && !IsSpace(s[|s| - 1])))
  }

  /** `re.sub(r'\s+', ' ', s)`. */
  function CollapseSpaces(s: string): string
    decreases |s|
  {
    if s == [] then []
    else if IsSpace(s[0]) then
      StripLeftIsSuffix(s[1..]);
      [' '] + CollapseSpaces(StripLeft(s))
    else [s[0]] + CollapseSpaces(s[1..])
  }

  lemma {:induction false} NonSpaceAppend(a: string, b: string)
    ensures NonSpace(a + b) == NonSpace(a) + NonSpace(b)
  {
    if a != [] {
      assert (a + b)[1..] == a[1..] + b;
      NonSpaceAppend(a[1..], b);
    } else {
      assert a + b == b;
    }
  }

  lemma {:induction false} NonSpaceOfSpaces(s: string)
    requires forall i :: 0 <= i < |s| ==> IsSpace(s[i])
    ensures NonSpace(s) == []
  {
    if s != [] { NonSpaceOfSpaces(s[1..]); }
  }

  lemma NonSpaceStripLeft(s: string)
    ensures NonSpace(StripLeft(s)) == NonSpace(s)
  {
    StripLeftIsSuffix(s);
    var l := StripLeft(s);
    var k := |s| - |l|;
    assert s == s[..k] + l;
    NonSpaceAppend(s[..k], l);
    NonSpaceOfSpaces(s[..k]);
  }

  lemma NonSpaceStripRight(s: string)
    ensures NonSpace(StripRight(s)) == NonSpace(s)
  {
    StripRightIsPrefix(s);
    var r := StripRight(s);
    assert s == r + s[|r|..];
    NonSpaceAppend(r, s[|r|..]);
    NonSpaceOfSpaces(s[|r|..]);
  }

  lemma {:induction false} CollapseShape(s: string)
    ensures OnlyPlainSpaces(CollapseSpaces(s)) && NoDoubleSpace(CollapseSpaces(s))
    ensures NonSpace(CollapseSpaces(s)) == NonSpace(s)
    ensures (CollapseSpaces(s) != [] && IsSpace(CollapseSpaces(s)[0])) <==> (s != [] && IsSpace(s[0]))
    decreases |s|
  {
    if s != [] {
      var r := CollapseSpaces(s);
      if IsSpace(s[0]) {
        var t := StripLeft(s);
        StripLeftIsSuffix(s);
        CollapseShape(t);
        NonSpaceStripLeft(s);
        assert r == [' '] + CollapseSpaces(t);
        assert r[1..] == CollapseSpaces(t);
      } else {
        CollapseShape(s[1..]);
        assert r == [s[0]] + CollapseSpaces(s[1..]);
        assert r[1..] == CollapseSpaces(s[1..]);
      }
    }
  }

  /** Taking a slice keeps single plain spaces single and plain. */
  lemma SliceKeepsSpacing(s: string, lo: nat, hi: nat)
    requires lo <= hi <= |s|
    requires OnlyPlainSpaces(s) && NoDoubleSpace(s)
    ensures OnlyPlainSpaces(s[lo..hi]) && NoDoubleSpace(s[lo..hi])
  {
    var t := s[lo..hi];
    forall i, j | 0 <= i < j < |t| && j == i + 1 ensures !(IsSpace(t[i]) && IsSpace(t[j])) {
      assert t[i] == s[lo + i] && t[j] == s[lo + j];
    }
    forall i | 0 <= i < |t| && IsSpace(t[i]) ensures t[i] == ' ' {
      assert t[i] == s[lo + i];
    }
  }

  /** `clean_text`: collapse every whitespace run to one space, then strip.
      Every character other than whitespace is kept, in order. */
  function CleanText(s: string): (r: string)
    ensures NonSpace(r) == NonSpace(s)
  {
    CollapseShape(s);
    StripShape(CollapseSpaces(s));
    Strip(CollapseSpaces(s))
  }

  /** `clean_text` leaves single plain spaces between words and nothing to
      strip at either end. */
  lemma CleanTextIsClean(s: string)
    ensures IsClean(CleanText(s))
  {
    CollapseShape(s);
    StripShape(CollapseSpaces(s));
  }

  /** Stripping a string with single plain spaces leaves a clean string with
      the same non-space characters. */
  lemma StripShape(c: string)
    requires OnlyPlainSpaces(c) && NoDoubleSpace(c)
    ensures IsClean(Strip(c))
    ensures NonSpace(Strip(c)) == NonSpace(c)
  {
    var l := StripLeft(c);
    StripLeftShape(c);
    StripRightShape(l);
  }

  lemma StripLeftShape(c: string)
    requires OnlyPlainSpaces(c) && NoDoubleSpace(c)
    ensures OnlyPlainSpaces(StripLeft(c)) && NoDoubleSpace(StripLeft(c))
    ensures NonSpace(StripLeft(c)) == NonSpace(c)
  {
    var l := StripLeft(c);
    StripLeftIsSuffix(c);
    SliceKeepsSpacing(c, |c| - |l|, |c|);
    NonSpaceStripLeft(c);
  }

  lemma StripRightShape(l: string)
    requires OnlyPlainSpaces(l) && NoDoubleSpace(l)
    requires l == [] || !IsSpace(l[0])
    ensures IsClean(StripRight(l))
    ensures NonSpace(StripRight(l)) == NonSpace(l)
  {
    var r := StripRight(l);
    StripRightIsPrefix(l);
    SliceKeepsSpacing(l, 0, |r|);
    assert l[0..|r|] == r;
    NonSpaceStripRight(l);
    assert r == [] || r[0] == l[0];
  }

  lemma {:induction false} CollapseFixesSpaced(t: string)
    requires OnlyPlainSpaces(t) && NoDoubleSpace(t)
    ensures CollapseSpaces(t) == t
    decreases |t|
  {
    if t != [] {
      SliceKeepsSpacing(t, 1, |t|);
      CollapseFixesSpaced(t[1..]);
      if IsSpace(t[0]) {
        assert StripLeft(t) == StripLeft(t[1..]);
        assert t[1..] == [] || !IsSpace(t[1..][0]);
        assert StripLeft(t[1..]) == t[1..];
        assert t == [' '] + t[1..];
      } else {
        assert t == [t[0]] + t[1..];
      }
    }
  }

  /** `clean_text` leaves its own output alone. */
  lemma CleanTextIdempotent(s: string)
    ensures CleanText(CleanText(s)) == CleanText(s)
  {
    var t := CleanText(s);
    CleanTextIsClean(s);
    CollapseFixesSpaced(t);
    if t != [] {
      assert StripLeft(t) == t;
      assert StripRight(t) == t;
    }
  }

  /** `clean_text` yields `''` exactly when its input is all whitespace. */
  lemma CleanTextEmptyIff(s: string)
    ensures CleanText(s) == [] <==> NonSpace(s) == []
  {
    var t := CleanText(s);
    CleanTextIsClean(s);
    if t != [] {
      assert NonSpace(t) == [t[0]] + NonSpace(t[1..]);
    }
  }

  // ---------------------------------------------------------------------------
  // escape_markdown
  //
  // The pattern is the f-string `([\\`*_{}[]()#+-.!])`. Its bracket class
  // closes at the first `]`, `()` is an empty group, and the rest is literal
  // or a wildcard, so a match is: one of \ ` * _ { } [, then one or more `#`,
  // then `-`, then any character but a newline, then `!`, then `]`. Each match
  // gets a backslash in front; everything else is copied.

  predicate IsEscapeLead(c: char) {
    c == '\\' || c == '`' || c == '*' || c == '_' || c == '{' || c == '}' || c == '['
  }

  /** Length of the run of `#` at the start of `s`. */
  function HashRun(s: string): (n: nat)
    ensures n <= |s|
    ensures forall i :: 0 <= i < n ==> s[i] == '#'
    ensures n == |s| || s[n] != '#'
  {
    if s != [] && s[0] == '#' then 1 + HashRun(s[1..]) else 0
  }

  /** Length of the match anchored at the start of `s`, or 0 where there is none. */
  function MatchLength(s: string): (n: nat)
    ensures n == 0 || 6 <= n <= |s|
  {
    if s == [] || !IsEscapeLead(s[0]) then 0
    else
      var k := HashRun(s[1..]);
      if 1 <= k && 5 + k <= |s| && s[1 + k] == '-' && s[2 + k] != '\n' && s[3 + k] == '!' && s[4 + k] == ']'
      then 5 + k
      else 0
  }

  /** `escape_markdown`: `re.sub` scans left to right and rewrites the
      non-overlapping matches. */
  function EscapeMarkdown(s: string): (r: string)
    ensures |s| <= |r|
    decreases |s|
  {
    if s == [] then []
    else
      var n := MatchLength(s);
      if n > 0 then ['\\'] + s[..n] + EscapeMarkdown(s[n..])
      else [s[0]] + EscapeMarkdown(s[1..])
  }

  /** No match can start without a `#` after its first character, so text
      without `#` comes back unchanged. */
  lemma {:induction false} EscapeMarkdownWithoutHash(s: string)
    requires forall i :: 0 <= i < |s| ==> s[i] != '#'
    ensures EscapeMarkdown(s) == s
    decreases |s|
  {
    if s != [] {
      assert |s| < 2 || s[1..][0] != '#';
      assert MatchLength(s) == 0;
      EscapeMarkdownWithoutHash(s[1..]);
      assert s == [s[0]] + s[1..];
    }
  }

  /** The characters other than backslashes, in order. */
  function DropBackslashes(s: string): string {
    if s == [] then [] else (if s[0] == '\\' then [] else [s[0]]) + DropBackslashes(s[1..])
  }

  lemma {:induction false} DropBackslashesAppend(a: string, b: string)
    ensures DropBackslashes(a + b) == DropBackslashes(a) + DropBackslashes(b)
  {
    if a != [] {
      assert (a + b)[1..] == a[1..] + b;
      DropBackslashesAppend(a[1..], b);
    } else {
      assert a + b == b;
    }
  }

  /** Escaping a match `m` in front of the rest `e` only adds a backslash. */
  lemma DropEscapedMatch(m: string, e: string)
    ensures DropBackslashes(['\\'] + m + e) == DropBackslashes(m) + DropBackslashes(e)
  {
    DropBackslashesAppend(['\\'] + m, e);
    DropBackslashesAppend(['\\'], m);
  }

  /** The escaping only ever inserts backslashes: nothing else is added,
      dropped or reordered. */
  lemma {:induction false} EscapeMarkdownOnlyInsertsBackslashes(s: string)
    ensures DropBackslashes(EscapeMarkdown(s)) == DropBackslashes(s)
    decreases |s|
  {
    if s != [] {
      var n := MatchLength(s);
      if n > 0 {
        var e := EscapeMarkdown(s[n..]);
        EscapeMarkdownOnlyInsertsBackslashes(s[n..]);
        DropEscapedMatch(s[..n], e);
        DropBackslashesAppend(s[..n], s[n..]);
        TakeDrop(s, n);
      } else {
        EscapeMarkdownOnlyInsertsBackslashes(s[1..]);
        DropBackslashesAppend([s[0]], EscapeMarkdown(s[1..]));
        DropBackslashesAppend([s[0]], s[1..]);
        TakeDrop(s, 1);
        assert s[..1] == [s[0]];
      }
    }
  }

  /** Where no match starts, the text comes back unchanged. */
  lemma {:induction false} EscapeMarkdownUnchangedWithoutMatch(s: string)
    requires forall i :: 0 <= i < |s| ==> MatchLength(s[i..]) == 0
    ensures EscapeMarkdown(s) == s
    decreases |s|
  {
    if s != [] {
      assert s[0..] == s;
      forall i | 0 <= i < |s[1..]| ensures MatchLength(s[1..][i..]) == 0 {
        assert s[1..][i..] == s[i + 1..];
      }
      EscapeMarkdownUnchangedWithoutMatch(s[1..]);
      TakeDrop(s, 1);
      assert s[..1] == [s[0]];
    }
  }

  /** A match anywhere makes the output longer: the scan either rewrites it
      or has already rewritten an earlier match that covers it. */
  lemma {:induction false} EscapeMarkdownLongerAtMatch(s: string, i: nat)
    requires i < |s| && MatchLength(s[i..]) > 0
    ensures |EscapeMarkdown(s)| > |s|
    decreases |s|
  {
    if MatchLength(s) == 0 {
      assert s[0..] == s;
      assert s[1..][i - 1..] == s[i..];
      EscapeMarkdownLongerAtMatch(s[1..], i - 1);
    }
  }

  /** The escape changes a text exactly when the pattern matches somewhere in it. */
  lemma EscapeMarkdownUnchangedIff(s: string)
    ensures EscapeMarkdown(s) == s <==> forall i :: 0 <= i < |s| ==> MatchLength(s[i..]) == 0
  {
    if forall i :: 0 <= i < |s| ==> MatchLength(s[i..]) == 0 {
      EscapeMarkdownUnchangedWithoutMatch(s);
    } else {
      var i :| 0 <= i < |s| && MatchLength(s[i..]) > 0;
      EscapeMarkdownLongerAtMatch(s, i);
    }
  }

  /** A match is at least six characters long, so no shorter text, and in
      particular no listed character on its own, gets a backslash. */
  lemma EscapeMarkdownShortUnchanged(s: string)
    requires |s| < 6
    ensures EscapeMarkdown(s) == s
  {
    forall i | 0 <= i < |s| ensures MatchLength(s[i..]) == 0 {
    }
    EscapeMarkdownUnchangedWithoutMatch(s);
  }

  /** Example: most of the characters the function's own comment lists are
      left as they are. */
  lemma EscapeMarkdownKeepsListedCharacters()
    ensures EscapeMarkdown("a_b*c.d(e)+f!g-h") == "a_b*c.d(e)+f!g-h"
  {
    EscapeMarkdownWithoutHash("a_b*c.d(e)+f!g-h");
  }

  /** Example: a whole match of the pattern gets exactly one backslash in front. */
  lemma EscapeMarkdownMatchExample()
    ensures EscapeMarkdown("*##-x!]") == "\\*##-x!]"
  {
    assert MatchLength("*##-x!]") == 7;
    assert "*##-x!]"[7..] == [];
  }

  // ---------------------------------------------------------------------------
  // extract_foreign_key_reference

  predicate IsIdentChar(c: char) {
    'a' <= c <= 'z' || '0' <= c <= '9' || c == '_'
  }

  predicate IsIdentifier(s: string) {
    s != [] && forall i :: 0 <= i < |s| ==> IsIdentChar(s[i])
  }

  /** Length of the run of `[a-z0-9_]` at the start of `s`. */
  function IdentRun(s: string): (n: nat)
    ensures n <= |s|
    ensures forall i :: 0 <= i < n ==> IsIdentChar(s[i])
    ensures n == |s| || !IsIdentChar(s[n])
  {
    if s != [] && IsIdentChar(s[0]) then 1 + IdentRun(s[1..]) else 0
  }

  /** `d` starts with `fk to`, then `w >= 1` whitespace characters, then the
      identifier `x`, which no identifier character follows. */
  predicate ReferenceAt(d: string, w: nat, x: string) {
    StartsWith(d, "fk to") && 1 <= w && 5 + w + |x| <= |d| && IsIdentifier(x)
    && (forall k :: 5 <= k < 5 + w ==> IsSpace(d[k]))
    && d[5 + w..5 + w + |x|] == x
    && (5 + w + |x| == |d| || !IsIdentChar(d[5 + w + |x|]))
  }

  lemma {:induction false} StripLeftSkips(s: string, w: nat)
    requires w < |s| && !IsSpace(s[w])
    requires forall k :: 0 <= k < w ==> IsSpace(s[k])
    ensures StripLeft(s) == s[w..]
  {
    if w > 0 {
      StripLeftSkips(s[1..], w - 1);
      assert s[1..][w - 1..] == s[w..];
    }
  }

  /** The pattern `fk to\s+([a-z0-9_]+)` anchored at the start of `d`, giving
      its group. */
  function FkMatch(d: string): Option<string> {
    if |d| < 5 || d[..5] != "fk to" then None
    else
      var rest := d[5..];
      var after := StripLeft(rest);
      StripLeftIsSuffix(rest);
      var w := |rest| - |after|;
      var n := IdentRun(after);
      if w >= 1 && n >= 1 then Some(after[..n]) else None
  }

  /** The anchored match succeeds exactly when `d` has the shape of a
      reference, and its group is that reference's identifier. */
  lemma FkMatchMeaning(d: string)
    ensures FkMatch(d).Some? ==> exists w :: ReferenceAt(d, w, FkMatch(d).value)
    ensures FkMatch(d).None? ==> forall w, x :: !ReferenceAt(d, w, x)
  {
    if |d| >= 5 && d[..5] == "fk to" {
      var rest := d[5..];
      StripLeftIsSuffix(rest);
      FkMatchShape(d, |rest| - |StripLeft(rest)|, IdentRun(StripLeft(rest)));
    }
  }

  lemma FkMatchShape(d: string, w: nat, n: nat)
    requires StartsWith(d, "fk to")
    requires w == |d| - 5 - |StripLeft(d[5..])| && n == IdentRun(StripLeft(d[5..]))
    ensures w >= 1 && n >= 1 ==> ReferenceAt(d, w, StripLeft(d[5..])[..n])
    ensures !(w >= 1 && n >= 1) ==> forall w', x :: !ReferenceAt(d, w', x)
  {
    var rest := d[5..];
    var after := StripLeft(rest);
    StripLeftIsSuffix(rest);
    assert after == d[5 + w..];
    forall k | 5 <= k < 5 + w ensures IsSpace(d[k]) {
      assert d[k] == rest[k - 5];
    }
    if w >= 1 && n >= 1 {
      assert d[5 + w..5 + w + n] == after[..n];
      assert 5 + w + n == |d| || d[5 + w + n] == after[n];
    }
    forall w', x | ReferenceAt(d, w', x) ensures w >= 1 && n >= 1 {
      assert !IsSpace(d[5 + w']) by { assert d[5 + w'] == x[0]; }
      forall k | 0 <= k < w' ensures IsSpace(rest[k]) { assert rest[k] == d[5 + k]; }
      StripLeftSkips(rest, w');
      assert after[0] == x[0];
    }
  }

  /** `re.search`: the match at the leftmost position where one exists. */
  function SearchFk(d: string): Option<string>
    decreases |d|
  {
    if d == [] then None
    else if FkMatch(d).Some? then FkMatch(d)
    else SearchFk(d[1..])
  }

  /** `SearchFk` finds a match when there is one anywhere, and then the one
      at the leftmost position. */
  lemma {:induction false} SearchFkLeftmost(d: string)
    ensures SearchFk(d).Some? <==> exists i :: 0 <= i <= |d| && FkMatch(d[i..]).Some?
    ensures SearchFk(d).Some? ==> exists i :: 0 <= i <= |d| && FkMatch(d[i..]) == SearchFk(d)
                                    && forall j :: 0 <= j < i ==> FkMatch(d[j..]).None?
    decreases |d|
  {
    assert d[0..] == d;
    if d != [] && FkMatch(d).None? {
      var t := d[1..];
      SearchFkLeftmost(t);
      forall i | 0 <= i <= |t| ensures t[i..] == d[i + 1..] { }
      if exists i :: 0 <= i <= |d| && FkMatch(d[i..]).Some? {
        var i :| 0 <= i <= |d| && FkMatch(d[i..]).Some?;
        assert i > 0 && FkMatch(t[i - 1..]).Some?;
      }
      if SearchFk(d).Some? {
        var i :| 0 <= i <= |t| && FkMatch(t[i..]) == SearchFk(t)
                 && forall j :: 0 <= j < i ==> FkMatch(t[j..]).None?;
        forall j | 0 <= j < i + 1 ensures FkMatch(d[j..]).None? {
          if j > 0 { assert FkMatch(t[j - 1..]).None?; }
        }
        assert FkMatch(d[i + 1..]) == SearchFk(d);
      }
    }
  }

  /** `extract_foreign_key_reference`. */
  function ForeignKeyReference(description: string): (r: Option<string>)
    ensures r.Some? ==> Contains(Lower(description), "fk to")
    ensures r.Some? ==> IsIdentifier(r.value)
  {
    var d := Lower(description);
    if Contains(d, "fk to") then
      var r := SearchFk(d);
      ForeignKeyFound(d);
      r
    else None
  }

  /** An anchored match starts with `fk to` and its group is an identifier. */
  lemma FkMatchFound(d: string)
    ensures FkMatch(d).Some? ==> StartsWith(d, "fk to") && IsIdentifier(FkMatch(d).value)
  {
  }

  /** What `SearchFk` finds is an identifier, found after an occurrence of `fk to`. */
  lemma {:induction false} ForeignKeyFound(d: string)
    ensures SearchFk(d).Some? ==> IsIdentifier(SearchFk(d).value)
    ensures SearchFk(d).Some? ==> Contains(d, "fk to")
    decreases |d|
  {
    if d != [] {
      if FkMatch(d).Some? {
        FkMatchFound(d);
        assert OccursAt(d, "fk to", 0);
      } else {
        var t := d[1..];
        ForeignKeyFound(t);
        if SearchFk(d).Some? {
          var i :| 0 <= i <= |t| - 5 && OccursAt(t, "fk to", i);
          assert t[i..i + 5] == d[i + 1..i + 6];
          assert OccursAt(d, "fk to", i + 1);
        }
      }
    }
  }

  /** The `'fk to' in desc` test only saves work: the result is always the
      leftmost match of the pattern in the lowercased description. */
  lemma ForeignKeyReferenceIsLeftmostMatch(description: string)
    ensures ForeignKeyReference(description) == SearchFk(Lower(description))
  {
    ForeignKeyFound(Lower(description));
  }

  // ---------------------------------------------------------------------------
  // parse_column

  /** One row of a column table: the texts of its `td` cells. */
  type Row = seq<string>

  datatype Column = Column(
    order: string,
    name: string,
    dataType: string,
    constraints: string,
    description: string,
    enumValues: seq<string>)

  /** A row that continues the enum list of the column above it. */
  predicate IsContinuationRow(r: Row) {
    |r| >= 4 && Strip(r[1]) == ""
  }

  /** The values collected from the sibling rows after an `enum:` column. */
  function EnumValues(following: seq<Row>): seq<string> {
    if following == [] || !IsContinuationRow(following[0]) then []
    else
      var v := CleanText(following[0][3]);
      (if v != "" then [v] else []) + EnumValues(following[1..])
  }

  /** `parse_column` on a row and the rows that follow it in its table. */
  function ColumnOf(cells: Row, following: seq<Row>): Option<Column> {
    if |cells| < 4 then None
    else
      var name := Strip(cells[1]);
      if name == "" then None
      else
        var description := CleanText(cells[3]);
        var enumValues := if Contains(Lower(description), "enum:") then EnumValues(following) else [];
        Some(Column(Strip(cells[0]), name, Strip(cells[2]), "", description, enumValues))
  }

  /** One pass of the collection loop over the row `rest[0]`. */
  lemma CollectStep(values: seq<string>, rest: seq<Row>)
    requires rest != []
    ensures !IsContinuationRow(rest[0]) ==> values + EnumValues(rest) == values
    ensures IsContinuationRow(rest[0]) ==>
      var v := CleanText(rest[0][3]);
      values + EnumValues(rest) == (if v != "" then values + [v] else values) + EnumValues(rest[1..])
  {
  }

  /** The `while` loop of `parse_column` over the sibling rows. */
  method CollectEnumValues(following: seq<Row>) returns (values: seq<string>)
    ensures values == EnumValues(following)
  {
    values := [];
    var i := 0;
    ghost var rest := following;
    while i < |following|
      invariant 0 <= i <= |following| && rest == following[i..]
      invariant values + EnumValues(rest) == EnumValues(following)
    {
      var row := following[i];
      assert row == rest[0];
      CollectStep(values, rest);
      if !IsContinuationRow(row) {
        return;
      }
      var value := CleanText(row[3]);
      if value != "" {
        values := values + [value];
      }
      i := i + 1;
      rest := rest[1..];
    }
  }

  method ParseColumn(cells: Row, following: seq<Row>) returns (column: Option<Column>)
    ensures column == ColumnOf(cells, following)
  {
    if |cells| < 4 {
      return None;
    }
    var name := Strip(cells[1]);
    if name == "" {
      return None;
    }
    var description := CleanText(cells[3]);
    var enumValues: seq<string> := [];
    if Contains(Lower(description), "enum:") {
      enumValues := CollectEnumValues(following);
    }
    return Some(Column(Strip(cells[0]), name, Strip(cells[2]), "", description, enumValues));
  }

  /** Which rows are rejected, and the fields a column always gets. */
  lemma ColumnOfFields(cells: Row, following: seq<Row>)
    ensures ColumnOf(cells, following).None? <==> |cells| < 4 || Strip(cells[1]) == ""
    ensures ColumnOf(cells, following).Some? ==>
      var c := ColumnOf(cells, following).value;
      c.name == Strip(cells[1]) && c.name != "" && c.constraints == ""
      && c.description == CleanText(cells[3]) && IsClean(c.description)
      && c.order == Strip(cells[0]) && c.dataType == Strip(cells[2])
      && (c.enumValues != [] ==> Contains(Lower(c.description), "enum:"))
  {
    if |cells| >= 4 {
      CleanTextIsClean(cells[3]);
    }
  }

  /** Every collected value is non-empty and cleaned; there is at most one per row. */
  lemma {:induction false} EnumValuesClean(following: seq<Row>)
    ensures |EnumValues(following)| <= |following|
    ensures forall v :: v in EnumValues(following) ==> v != "" && IsClean(v)
  {
    if following != [] && IsContinuationRow(following[0]) {
      EnumValuesClean(following[1..]);
      CleanTextIsClean(following[0][3]);
    }
  }

  /** Collection stops at the first row that is not a continuation row:
      nothing after it is ever looked at. */
  lemma {:induction false} EnumValuesStopAt(following: seq<Row>, i: nat)
    requires i < |following| && !IsContinuationRow(following[i])
    ensures EnumValues(following) == EnumValues(following[..i])
  {
    if i > 0 && IsContinuationRow(following[0]) {
      EnumValuesStopAt(following[1..], i - 1);
      assert following[1..][..i - 1] == following[..i][1..];
    }
  }

  /** The continuation rows before `following[i]`, and `following[i]` itself. */
  predicate ContinuesThrough(following: seq<Row>, i: nat)
    requires i < |following|
  {
    IsContinuationRow(following[0]) && (i == 0 || ContinuesThrough(following[1..], i - 1))
  }

  /** A value is collected exactly when it is the non-empty cleaned fourth
      cell of a row reached through continuation rows only. */
  lemma {:induction false} EnumValuesMembership(following: seq<Row>, v: string)
    ensures v in EnumValues(following) <==>
      exists i :: 0 <= i < |following| && ContinuesThrough(following, i) && IsContinuationRow(following[i])
                  && CleanText(following[i][3]) == v && v != ""
  {
    if following != [] && IsContinuationRow(following[0]) {
      var tail := following[1..];
      var head := CleanText(following[0][3]);
      EnumValuesMembership(tail, v);
      assert EnumValues(following) == (if head != "" then [head] else []) + EnumValues(tail);
      if v in EnumValues(following) {
        if v == head {
          assert ContinuesThrough(following, 0);
        } else {
          assert v in EnumValues(tail);
          var i :| 0 <= i < |tail| && ContinuesThrough(tail, i) && IsContinuationRow(tail[i])
                   && CleanText(tail[i][3]) == v && v != "";
          assert ContinuesThrough(following, i + 1) && following[i + 1] == tail[i];
        }
      }
      if exists i :: 0 <= i < |following| && ContinuesThrough(following, i) && IsContinuationRow(following[i])
                     && CleanText(following[i][3]) == v && v != "" {
        var i :| 0 <= i < |following| && ContinuesThrough(following, i) && IsContinuationRow(following[i])
                 && CleanText(following[i][3]) == v && v != "";
        if i > 0 {
          assert ContinuesThrough(tail, i - 1) && tail[i - 1] == following[i];
        }
      }
    }
  }

  // ---------------------------------------------------------------------------
  // parse_table_section

  /** A `dict[str, str]`: pairs in insertion order with distinct keys. */
  type Dict = seq<(string, string)>

  function Keys(m: Dict): seq<string> {
    seq(|m|, i requires 0 <= i < |m| => m[i].0)
  }

  predicate UniqueKeys(m: Dict) {
    forall i, j :: 0 <= i < j < |m| ==> m[i].0 != m[j].0
  }

  function Lookup(m: Dict, k: string): Option<string> {
    if m == [] then None else if m[0].0 == k then Some(m[0].1) else Lookup(m[1..], k)
  }

  /** `m[k] = v`: an existing key keeps its place and takes the new value, a
      new key goes at the end. */
  function Put(m: Dict, k: string, v: string): Dict {
    if m == [] then [(k, v)]
    else if m[0].0 == k then [(k, v)] + m[1..]
    else [m[0]] + Put(m[1..], k, v)
  }

  lemma {:induction false} PutKeys(m: Dict, k: string, v: string)
    ensures Keys(Put(m, k, v)) == if k in Keys(m) then Keys(m) else Keys(m) + [k]
  {
    if m == [] {
      assert Keys([(k, v)]) == [k];
    } else {
      var t := m[1..];
      PutKeys(t, k, v);
      assert Keys(m) == [m[0].0] + Keys(t);
      if m[0].0 == k {
        assert Keys(Put(m, k, v)) == [k] + Keys(t);
      } else {
        assert Keys(Put(m, k, v)) == [m[0].0] + Keys(Put(t, k, v));
      }
    }
  }

  lemma {:induction false} PutLookup(m: Dict, k: string, v: string)
    ensures forall k' :: Lookup(Put(m, k, v), k') == if k' == k then Some(v) else Lookup(m, k')
  {
    if m != [] && m[0].0 != k {
      PutLookup(m[1..], k, v);
      forall k' ensures Lookup(Put(m, k, v), k') == if k' == k then Some(v) else Lookup(m, k') {
        if k' != m[0].0 { LookupSkipsHead(Put(m, k, v), k'); LookupSkipsHead(m, k'); }
      }
    }
  }

  /** `m[k] = v` keeps the keys distinct, keeps an existing key in its place,
      appends a new one, and changes only the value under `k`. */
  lemma PutSemantics(m: Dict, k: string, v: string)
    requires UniqueKeys(m)
    ensures UniqueKeys(Put(m, k, v))
    ensures Keys(Put(m, k, v)) == if k in Keys(m) then Keys(m) else Keys(m) + [k]
    ensures forall k' :: Lookup(Put(m, k, v), k') == if k' == k then Some(v) else Lookup(m, k')
  {
    PutKeys(m, k, v);
    PutLookup(m, k, v);
    var p := Put(m, k, v);
    forall i, j | 0 <= i < j < |p| ensures p[i].0 != p[j].0 {
      assert p[i].0 == Keys(p)[i] && p[j].0 == Keys(p)[j];
      assert Keys(m)[i] == m[i].0;
      if j < |m| {
        assert Keys(m)[j] == m[j].0;
      } else {
        assert k !in Keys(m) && Keys(p)[j] == k;
      }
    }
  }

  lemma LookupSkipsHead(m: Dict, k: string)
    requires m != [] && m[0].0 != k
    ensures Lookup(m, k) == Lookup(m[1..], k)
  {
  }

  lemma {:induction false} LookupFindsKey(m: Dict, k: string)
    ensures Lookup(m, k).Some? <==> k in Keys(m)
  {
    if m != [] {
      LookupFindsKey(m[1..], k);
      assert Keys(m) == [m[0].0] + Keys(m[1..]);
    }
  }

  datatype Table = Table(
    name: string,
    description: string,
    columns: seq<Column>,
    primaryKeys: seq<string>,
    foreignKeys: Dict)

  /** Columns of the data rows `rows[1..hi]`; the header row 0 is skipped and
      every row sees all rows after it as its siblings. */
  function ColumnsIn(rows: seq<Row>, hi: nat): seq<Column>
    requires hi <= |rows|
  {
    if hi <= 1 then []
    else
      var c := ColumnOf(rows[hi - 1], rows[hi..]);
      ColumnsIn(rows, hi - 1) + (if c.Some? then [c.value] else [])
  }

  predicate MentionsPrimaryKey(description: string) {
    Contains(Lower(description), "primary key")
  }

  function PrimaryKeys(columns: seq<Column>): seq<string> {
    if columns == [] then []
    else
      var c := columns[|columns| - 1];
      PrimaryKeys(columns[..|columns| - 1]) + (if MentionsPrimaryKey(c.description) then [c.name] else [])
  }

  function ForeignKeys(columns: seq<Column>): Dict {
    if columns == [] then []
    else
      var c := columns[|columns| - 1];
      var fks := ForeignKeys(columns[..|columns| - 1]);
      var ref := ForeignKeyReference(c.description);
      if ref.Some? then Put(fks, c.name, ref.value) else fks
  }

  function AssembleTable(name: string, description: string, rows: seq<Row>): Table {
    var columns := ColumnsIn(rows, |rows|);
    Table(name, description, columns, PrimaryKeys(columns), ForeignKeys(columns))
  }

  /** The second row of a section's header table. */
  datatype DescriptionRow = NoSecondRow | SecondRowWithoutCell | SecondRow(firstCell: string)

  /** A section's first `table`: `NoHeader` when there is none or it has no
      `b` element, otherwise the text of that `b` and its second row. */
  datatype Header = NoHeader | Header(bold: string, descriptionRow: DescriptionRow)

  /** One `p` element of the document: its header table and, when it holds at
      least two tables, the rows of the second one. */
  datatype Section = Section(header: Header, columnRows: Option<seq<Row>>)

  /** `parse_table_section` returns `(None, None)`, a table, or raises (the
      second header row has no `td`, so `.text` is taken of `None`). */
  datatype SectionOutcome = NoTable | Parsed(table: Table) | Raised

  function SectionTable(section: Section): SectionOutcome {
    match section.header
    case NoHeader => NoTable
    case Header(bold, descriptionRow) =>
      if descriptionRow.SecondRowWithoutCell? then Raised
      else
        var name := Strip(bold);
        if name == "" || section.columnRows.None? then NoTable
        else
          var description := if descriptionRow.SecondRow? then CleanText(descriptionRow.firstCell) else "";
          Parsed(AssembleTable(name, description, section.columnRows.value))
  }

  method ParseTableSection(section: Section) returns (outcome: SectionOutcome)
    ensures outcome == SectionTable(section)
  {
    match section.header {
      case NoHeader =>
        return NoTable;
      case Header(bold, descriptionRow) =>
        if descriptionRow.SecondRowWithoutCell? {
          return Raised;
        }
        var name := Strip(bold);
        var description := if descriptionRow.SecondRow? then CleanText(descriptionRow.firstCell) else "";
        if name == "" || section.columnRows.None? {
          return NoTable;
        }
        var rows := section.columnRows.value;
        var columns: seq<Column> := [];
        var primaryKeys: seq<string> := [];
        var foreignKeys: Dict := [];
        var k := 1;
        while k < |rows|
          invariant 1 <= k && (|rows| == 0 || k <= |rows|)
          invariant columns == ColumnsIn(rows, if |rows| == 0 then 0 else k)
          invariant primaryKeys == PrimaryKeys(columns)
          invariant foreignKeys == ForeignKeys(columns)
        {
          var column := ParseColumn(rows[k], rows[k + 1..]);
          if column.Some? {
            var c := column.value;
            if Contains(Lower(c.description), "primary key") {
              primaryKeys := primaryKeys + [c.name];
            }
            var referenced := ForeignKeyReference(c.description);
            if referenced.Some? {
              foreignKeys := Put(foreignKeys, c.name, referenced.value);
            }
            assert (columns + [c])[..|columns|] == columns;
            columns := columns + [c];
          }
          k := k + 1;
        }
        return Parsed(Table(name, description, columns, primaryKeys, foreignKeys));
    }
  }

  lemma {:induction false} PrimaryKeysSplit(a: seq<Column>, b: seq<Column>)
    ensures PrimaryKeys(a + b) == PrimaryKeys(a) + PrimaryKeys(b)
    decreases |b|
  {
    if b == [] {
      assert a + b == a;
    } else {
      assert (a + b)[..|a + b| - 1] == a + b[..|b| - 1];
      PrimaryKeysSplit(a, b[..|b| - 1]);
    }
  }

  /** `primary_keys` names every column whose description mentions a primary
      key, in any case; several columns can be listed. */
  lemma {:induction false} PrimaryKeysAreAllFlagged(columns: seq<Column>, n: string)
    ensures n in PrimaryKeys(columns) <==>
      exists i :: 0 <= i < |columns| && columns[i].name == n && MentionsPrimaryKey(columns[i].description)
  {
    if columns != [] {
      var init := columns[..|columns| - 1];
      PrimaryKeysAreAllFlagged(init, n);
      if exists i :: 0 <= i < |columns| && columns[i].name == n && MentionsPrimaryKey(columns[i].description) {
        var i :| 0 <= i < |columns| && columns[i].name == n && MentionsPrimaryKey(columns[i].description);
        if i < |init| { assert init[i] == columns[i]; }
      }
      if n in PrimaryKeys(init) {
        var i :| 0 <= i < |init| && init[i].name == n && MentionsPrimaryKey(init[i].description);
        assert columns[i] == init[i];
      }
    }
  }

  /** The reference recorded for `n` by the last column named `n` that has one. */
  function LastReference(columns: seq<Column>, n: string): Option<string> {
    if columns == [] then None
    else
      var c := columns[|columns| - 1];
      var ref := ForeignKeyReference(c.description);
      if c.name == n && ref.Some? then ref else LastReference(columns[..|columns| - 1], n)
  }

  /** `foreign_keys` holds each column name once; its value is the reference of
      the last column with that name, so a later duplicate overwrites. */
  lemma {:induction false} ForeignKeysLastWins(columns: seq<Column>)
    ensures UniqueKeys(ForeignKeys(columns))
    ensures forall n :: Lookup(ForeignKeys(columns), n) == LastReference(columns, n)
  {
    if columns != [] {
      var init := columns[..|columns| - 1];
      var c := columns[|columns| - 1];
      ForeignKeysLastWins(init);
      var ref := ForeignKeyReference(c.description);
      if ref.Some? {
        PutSemantics(ForeignKeys(init), c.name, ref.value);
      }
    }
  }

  /** A section with a usable header and a column table always yields a named table. */
  lemma SectionTableNamed(section: Section)
    ensures SectionTable(section).Parsed? ==>
      SectionTable(section).table.name != "" && section.columnRows.Some?
      && SectionTable(section).table.columns == ColumnsIn(section.columnRows.value, |section.columnRows.value|)
  {
  }

  // ---------------------------------------------------------------------------
  // parse_schema

  /** Whether `section` passes the two-table test and parses to a table named `n`. */
  predicate Yields(section: Section, n: string) {
    section.columnRows.Some? && SectionTable(section).Parsed? && SectionTable(section).table.name == n
  }

  /** The loop of `parse_schema` over the sections: later tables overwrite
      earlier ones of the same name. */
  function SchemaOf(sections: seq<Section>): map<string, Table> {
    if sections == [] then map[]
    else
      var tables := SchemaOf(sections[..|sections| - 1]);
      var section := sections[|sections| - 1];
      if section.columnRows.Some? && SectionTable(section).Parsed?
      then tables[SectionTable(section).table.name := SectionTable(section).table]
      else tables
  }

  method ParseSchema(sections: seq<Section>) returns (tables: map<string, Table>)
    ensures tables == SchemaOf(sections)
  {
    tables := map[];
    var i := 0;
    while i < |sections|
      invariant 0 <= i <= |sections|
      invariant tables == SchemaOf(sections[..i])
    {
      var section := sections[i];
      if section.columnRows.Some? {
        var outcome := ParseTableSection(section);
        if outcome.Parsed? {
          tables := tables[outcome.table.name := outcome.table];
        }
      }
      assert sections[..i + 1][..i] == sections[..i];
      i := i + 1;
    }
    assert sections[..i] == sections;
  }

  /** Every key is a non-empty table name, naming its own table. */
  lemma {:induction false} SchemaKeysAreNames(sections: seq<Section>)
    ensures forall n :: n in SchemaOf(sections) ==> n != "" && SchemaOf(sections)[n].name == n
  {
    if sections != [] {
      SchemaKeysAreNames(sections[..|sections| - 1]);
      SectionTableNamed(sections[|sections| - 1]);
    }
  }

  /** The last section adds its table's name, if it yields one, to the keys. */
  lemma SchemaStep(sections: seq<Section>, n: string)
    requires sections != []
    ensures n in SchemaOf(sections) <==>
      n in SchemaOf(sections[..|sections| - 1]) || Yields(sections[|sections| - 1], n)
  {
  }

  lemma {:induction false} YieldedIsKey(sections: seq<Section>, i: nat, n: string)
    requires i < |sections| && Yields(sections[i], n)
    ensures n in SchemaOf(sections)
  {
    var init := sections[..|sections| - 1];
    SchemaStep(sections, n);
    if i < |init| {
      assert init[i] == sections[i];
      YieldedIsKey(init, i, n);
    }
  }

  lemma {:induction false} KeyIsYielded(sections: seq<Section>, n: string)
    requires n in SchemaOf(sections)
    ensures exists i :: 0 <= i < |sections| && Yields(sections[i], n)
  {
    var init := sections[..|sections| - 1];
    SchemaStep(sections, n);
    if n in SchemaOf(init) {
      KeyIsYielded(init, n);
      var i :| 0 <= i < |init| && Yields(init[i], n);
      assert sections[i] == init[i];
    } else {
      assert Yields(sections[|sections| - 1], n);
    }
  }

  /** A name is a key exactly when some section yields a table of that name. */
  lemma SchemaKeysYielded(sections: seq<Section>, n: string)
    ensures n in SchemaOf(sections) <==> exists i :: 0 <= i < |sections| && Yields(sections[i], n)
  {
    if n in SchemaOf(sections) {
      KeyIsYielded(sections, n);
    }
    if exists i :: 0 <= i < |sections| && Yields(sections[i], n) {
      var i :| 0 <= i < |sections| && Yields(sections[i], n);
      YieldedIsKey(sections, i, n);
    }
  }

  /** The table kept under a name is the one of the last section yielding it. */
  lemma {:induction false} SchemaLastWins(sections: seq<Section>, i: nat, n: string)
    requires i < |sections| && Yields(sections[i], n)
    requires forall j :: i < j < |sections| ==> !Yields(sections[j], n)
    ensures n in SchemaOf(sections) && SchemaOf(sections)[n] == SectionTable(sections[i]).table
  {
    if i < |sections| - 1 {
      var init := sections[..|sections| - 1];
      assert init[i] == sections[i];
      forall j | i < j < |init| ensures !Yields(init[j], n) {
        assert init[j] == sections[j];
      }
      SchemaLastWins(init, i, n);
    }
  }
}
