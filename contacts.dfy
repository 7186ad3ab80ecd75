/** The row filter, phone cleaner and deduplicator of the converter: the loop
    that turns spreadsheet rows into the text of the output file, and the
    fold over the trimmed rows that specifies it. */
module Contacts {
  import opened Text
  import opened VCard

  /** Column headers of the input sheet. */
  const NameColumn: string := "ADI SOYADI"
  const CompanyColumn: string := "ŞİRKET ADI"
  const PhoneColumn: string := "TELEFON NO"

  /** One spreadsheet row, the text of its cells by column header. */
  type Row = map<string, string>

  /** `row.get(column, "")`: a missing column reads as the empty string. */
  function Cell(row: Row, column: string): string
  {
    if column in row then row[column] else ""
  }

  /** The three fields of a row after trimming. */
  datatype Fields = Fields(fullName: string, company: string, phone: string)

  /** Extracts and trims the name, company and phone cells of a row. */
  function Extract(row: Row): Fields
  {
    Fields(Strip(Cell(row, NameColumn)), Strip(Cell(row, CompanyColumn)), Strip(Cell(row, PhoneColumn)))
  }

  /** The trimmed fields of every row, in row order. */
  function Table(rows: seq<Row>): seq<Fields>
  {
    seq(|rows|, k requires 0 <= k < |rows| => Extract(rows[k]))
  }

  /** Trimming does not change the deduplication key: the cleaned phone of a
      row is the digits of its raw phone cell. */
  lemma TableCleanedPhone(rows: seq<Row>)
    ensures forall k :: 0 <= k < |rows| ==> CleanedPhone(Table(rows)[k]) == KeepDigits(Cell(rows[k], PhoneColumn))
  {
    forall k | 0 <= k < |rows|
      ensures CleanedPhone(Table(rows)[k]) == KeepDigits(Cell(rows[k], PhoneColumn))
    {
      StripKeepsDigits(Cell(rows[k], PhoneColumn));
    }
  }

  /** The digits of the trimmed phone: the key on which rows are deduplicated. */
  function CleanedPhone(f: Fields): string
  {
    KeepDigits(f.phone)
  }

  /** What goes into one card. */
  datatype Entry = Entry(fullName: string, company: string, phone: string)

  function EntryOf(f: Fields): Entry
  {
    Entry(f.fullName, f.company, CleanedPhone(f))
  }

  /** What the loop body does with one row. */
  datatype Decision = SkipBlank | SkipNoDigits | SkipDuplicate | Write(entry: Entry)

  /** The loop body's decision for a row with trimmed fields `f` when the
      phones in `seen` have already been written. */
  function Decide(f: Fields, seen: set<string>): Decision
  {
    if f.fullName == [] && f.phone == [] then SkipBlank
    else if CleanedPhone(f) == [] then SkipNoDigits
    else if CleanedPhone(f) in seen then SkipDuplicate
    else Write(EntryOf(f))
  }

  /** The phones of some entries, as a set. */
  function PhoneSet(entries: seq<Entry>): set<string>
  {
    set e | e in entries :: e.phone
  }

  lemma PhoneSetSnoc(entries: seq<Entry>, e: Entry)
    ensures PhoneSet(entries + [e]) == PhoneSet(entries) + {e.phone}
  {
    assert forall x :: x in entries + [e] <==> x in entries || x == e;
  }

  /** The entries written for the trimmed rows `table`: a left fold of Decide,
      with the phones written so far as the exclusion set. */
  function Accepted(table: seq<Fields>): seq<Entry>
    decreases |table|
  {
    if table == [] then []
    else
      var written := Accepted(table[..|table| - 1]);
      match Decide(table[|table| - 1], PhoneSet(written))
      case Write(e) => written + [e]
      case _ => written
  }

  /** The text of the cards of `entries`, one after another. */
  function Render(entries: seq<Entry>): string
    decreases |entries|
  {
    if entries == [] then []
    else
      var e := entries[0];
      GenerateCard(e.fullName, e.company, e.phone) + Render(entries[1..])
  }

  /** The lines of the cards of `entries`, one after another. */
  function OutputLines(entries: seq<Entry>): seq<string>
    decreases |entries|
  {
    if entries == [] then []
    else
      var e := entries[0];
      CardLines(e.fullName, e.company, e.phone) + OutputLines(entries[1..])
  }

  /** The phones of `entries`, in order. */
  function Phones(entries: seq<Entry>): seq<string>
    decreases |entries|
  {
    if entries == [] then [] else [entries[0].phone] + Phones(entries[1..])
  }

  /** `process_contacts`: trims each row, skips blank rows, cleans the phone,
      skips rows whose phone is empty or already written, and appends the card
      of every other row to the output; `count` is the size of the set of
      written phones. */
  method ProcessContacts(rows: seq<Row>) returns (output: string, count: nat)
    ensures output == Render(Accepted(Table(rows)))
    ensures count == |Accepted(Table(rows))|
  {
    var processedPhones: set<string> := {};
    ghost var written: seq<Entry> := [];
    output := "";
    for i := 0 to |rows|
      invariant written == Accepted(Table(rows[..i]))
      invariant processedPhones == PhoneSet(written)
      invariant |processedPhones| == |written|
      invariant output == Render(written)
    {
      var row := rows[i];
      TableSnoc(rows, i);
      AcceptedSnoc(Table(rows[..i]), Extract(row));
      var fullName := Strip(Cell(row, NameColumn));
      var company := Strip(Cell(row, CompanyColumn));
      var phone := Strip(Cell(row, PhoneColumn));
      if fullName == [] && phone == [] {
        continue;
      }
      var cleanedPhone := KeepDigits(phone);
      if cleanedPhone == [] || cleanedPhone in processedPhones {
        continue;
      }
      var entry := Entry(fullName, company, cleanedPhone);
      output := output + GenerateCard(fullName, company, cleanedPhone);
      RenderSnoc(written, entry);
      PhoneSetSnoc(written, entry);
      processedPhones := processedPhones + {cleanedPhone};
      written := written + [entry];
    }
    assert rows[..|rows|] == rows;
    count := |processedPhones|;
  }

  lemma TableSnoc(rows: seq<Row>, i: nat)
    requires i < |rows|
    ensures Table(rows[..i + 1]) == Table(rows[..i]) + [Extract(rows[i])]
  {
  }

  lemma {:induction false} RenderSnoc(entries: seq<Entry>, e: Entry)
    ensures Render(entries + [e]) == Render(entries) + GenerateCard(e.fullName, e.company, e.phone)
    decreases |entries|
  {
    if entries == [] {
      assert [e][1..] == [];
    } else {
      assert (entries + [e])[1..] == entries[1..] + [e];
      RenderSnoc(entries[1..], e);
    }
  }

  /** The blank-row test never decides on its own: a row is written exactly
      when its cleaned phone is non-empty and not yet written, and then with
      its trimmed name, trimmed company and cleaned phone. */
  lemma DecideWrites(f: Fields, seen: set<string>)
    ensures Decide(f, seen).Write? <==> CleanedPhone(f) != [] && CleanedPhone(f) !in seen
    ensures Decide(f, seen).Write? ==> Decide(f, seen).entry == EntryOf(f)
  {
  }

  /** One more row adds its entry when its cleaned phone is non-empty and new,
      and adds nothing otherwise. */
  lemma AcceptedSnoc(table: seq<Fields>, f: Fields)
    ensures Accepted(table + [f]) ==
      if CleanedPhone(f) != [] && CleanedPhone(f) !in PhoneSet(Accepted(table))
      then Accepted(table) + [EntryOf(f)]
      else Accepted(table)
  {
    assert (table + [f])[..|table|] == table;
    DecideWrites(f, PhoneSet(Accepted(table)));
  }

  /** A row whose trimmed name and trimmed phone are both empty is skipped as
      blank and leaves the written entries, hence the written phones, as they
      were. */
  lemma BlankRowSkipped(table: seq<Fields>, f: Fields)
    requires f.fullName == [] && f.phone == []
    ensures Decide(f, PhoneSet(Accepted(table))) == SkipBlank
    ensures Accepted(table + [f]) == Accepted(table)
  {
    AcceptedSnoc(table, f);
  }

  /** A row whose phone has no digit produces no card, whatever its name. */
  lemma NoDigitsRowSkipped(table: seq<Fields>, f: Fields)
    requires forall i :: 0 <= i < |f.phone| ==> !IsDigit(f.phone[i])
    ensures Decide(f, PhoneSet(Accepted(table))) in {SkipBlank, SkipNoDigits}
    ensures Accepted(table + [f]) == Accepted(table)
  {
    KeepDigitsEmpty(f.phone);
    AcceptedSnoc(table, f);
  }

  /** A row whose cleaned phone has been written already produces no card. */
  lemma DuplicateRowSkipped(table: seq<Fields>, f: Fields)
    requires CleanedPhone(f) in PhoneSet(Accepted(table))
    ensures Decide(f, PhoneSet(Accepted(table))) == SkipDuplicate
    ensures Accepted(table + [f]) == Accepted(table)
  {
    AcceptedSnoc(table, f);
  }

  /** Every written entry is the entry of some row, and its phone is a
      non-empty string of digits. */
  lemma {:induction false} AcceptedFromRows(table: seq<Fields>)
    ensures forall e :: e in Accepted(table) ==>
      e.phone != [] && AllDigits(e.phone) && exists k :: 0 <= k < |table| && e == EntryOf(table[k])
    decreases |table|
  {
    if table != [] {
      var prefix := table[..|table| - 1];
      var last := table[|table| - 1];
      AcceptedFromRows(prefix);
      AcceptedSnoc(prefix, last);
      KeepDigitsAllDigits(last.phone);
      assert prefix + [last] == table;
      forall e | e in Accepted(table)
        ensures exists k :: 0 <= k < |table| && e == EntryOf(table[k])
      {
        if e in Accepted(prefix) {
          var k :| 0 <= k < |prefix| && e == EntryOf(prefix[k]);
          assert table[k] == prefix[k];
        } else {
          assert e == EntryOf(table[|table| - 1]);
        }
      }
    }
  }

  /** No two written entries share a phone: the output has no two cards with
      the same TEL value. */
  lemma {:induction false} AcceptedPhonesDistinct(table: seq<Fields>)
    ensures forall i, j :: 0 <= i < j < |Accepted(table)| ==> Accepted(table)[i].phone != Accepted(table)[j].phone
    decreases |table|
  {
    if table != [] {
      var prefix := table[..|table| - 1];
      var last := table[|table| - 1];
      AcceptedPhonesDistinct(prefix);
      AcceptedSnoc(prefix, last);
      assert prefix + [last] == table;
      var before := Accepted(prefix);
      if Accepted(table) != before {
        forall i | 0 <= i < |before| ensures before[i].phone != CleanedPhone(last) {
          assert before[i] in before;
        }
      }
    }
  }

  /** The number of written phones equals the number of cards written. */
  lemma {:induction false} AcceptedCount(table: seq<Fields>)
    ensures |PhoneSet(Accepted(table))| == |Accepted(table)|
    decreases |table|
  {
    if table != [] {
      var prefix := table[..|table| - 1];
      var last := table[|table| - 1];
      AcceptedCount(prefix);
      AcceptedSnoc(prefix, last);
      assert prefix + [last] == table;
      PhoneSetSnoc(Accepted(prefix), EntryOf(last));
    }
  }

  /** The set of written phones is the set of non-empty cleaned phones of all
      rows: every row with a usable phone is represented by some card. */
  lemma {:induction false} SeenSetOfRows(table: seq<Fields>)
    ensures PhoneSet(Accepted(table)) ==
      set k | 0 <= k < |table| && CleanedPhone(table[k]) != [] :: CleanedPhone(table[k])
    decreases |table|
  {
    if table != [] {
      var prefix := table[..|table| - 1];
      var last := table[|table| - 1];
      SeenSetOfRows(prefix);
      AcceptedSnoc(prefix, last);
      assert prefix + [last] == table;
      PhoneSetSnoc(Accepted(prefix), EntryOf(last));
      var keys := set k | 0 <= k < |table| && CleanedPhone(table[k]) != [] :: CleanedPhone(table[k]);
      var keysBefore := set k | 0 <= k < |prefix| && CleanedPhone(prefix[k]) != [] :: CleanedPhone(prefix[k]);
      assert forall k :: 0 <= k < |prefix| ==> prefix[k] == table[k];
      assert keys == keysBefore + (if CleanedPhone(last) != [] then {CleanedPhone(last)} else {});
    }
  }

  /** The entries written for a prefix of the rows are a prefix of those
      written for all of them, so the set of written phones only grows. */
  lemma {:induction false} AcceptedPrefix(table: seq<Fields>, i: nat)
    requires i <= |table|
    ensures Accepted(table[..i]) <= Accepted(table)
    ensures PhoneSet(Accepted(table[..i])) <= PhoneSet(Accepted(table))
    decreases |table| - i
  {
    if i < |table| {
      AcceptedPrefix(table, i + 1);
      var before := table[..i];
      assert before + [table[i]] == table[..i + 1];
      AcceptedSnoc(before, table[i]);
      assert Accepted(before) <= Accepted(table[..i + 1]);
      PhoneSetPrefix(Accepted(before), Accepted(table[..i + 1]));
    } else {
      assert table[..i] == table;
    }
  }

  lemma PhoneSetPrefix(a: seq<Entry>, b: seq<Entry>)
    requires a <= b
    ensures PhoneSet(a) <= PhoneSet(b)
  {
    forall e | e in a ensures e in b {
      var k :| 0 <= k < |a| && a[k] == e;
      assert b[k] == e;
    }
  }

  /** Row `k` carries the first occurrence of a usable cleaned phone. */
  predicate IsFirst(table: seq<Fields>, k: nat)
    requires k < |table|
  {
    CleanedPhone(table[k]) != [] && forall j :: 0 <= j < k ==> CleanedPhone(table[j]) != CleanedPhone(table[k])
  }

  /** Reference definition without an exclusion set: the entries of the rows
      that carry the first occurrence of their cleaned phone, in row order. */
  function FirstOccurrences(table: seq<Fields>): seq<Entry>
    decreases |table|
  {
    if table == [] then []
    else
      FirstOccurrences(table[..|table| - 1])
      + (if IsFirst(table, |table| - 1) then [EntryOf(table[|table| - 1])] else [])
  }

  /** First occurrence wins: the written entries are exactly those of the rows
      that first carry each usable cleaned phone, in input row order; skipped
      rows contribute nothing. */
  lemma {:induction false} AcceptedIsFirstOccurrences(table: seq<Fields>)
    ensures Accepted(table) == FirstOccurrences(table)
    decreases |table|
  {
    if table != [] {
      var prefix := table[..|table| - 1];
      var last := table[|table| - 1];
      AcceptedIsFirstOccurrences(prefix);
      AcceptedSnoc(prefix, last);
      SeenSetOfRows(prefix);
      assert prefix + [last] == table;
      assert forall k :: 0 <= k < |prefix| ==> prefix[k] == table[k];
      if CleanedPhone(last) in PhoneSet(Accepted(prefix)) {
        var k :| 0 <= k < |prefix| && CleanedPhone(prefix[k]) != [] && CleanedPhone(prefix[k]) == CleanedPhone(last);
        assert !IsFirst(table, |table| - 1);
      }
    }
  }

  /** Two rows whose phones clean to the same non-empty digits produce one
      card, the first row's (as with "555-1234" and "5551234"), so the count
      is 1. */
  lemma SamePhoneTwice(first: Fields, second: Fields)
    requires CleanedPhone(first) != [] && CleanedPhone(second) == CleanedPhone(first)
    ensures Accepted([first, second]) == [EntryOf(first)]
  {
    AcceptedSnoc([], first);
    assert [] + [first] == [first];
    AcceptedSnoc([first], second);
    assert [first] + [second] == [first, second];
    PhoneSetSnoc([], EntryOf(first));
    assert [] + [EntryOf(first)] == [EntryOf(first)];
  }

  /** The output text is the line-feed join of all card lines plus a final
      empty piece: every line of every card ends with a line feed. In the string
      built here lines are separated by a bare line feed; the platform's line
      separator is substituted only when the text is written to the file. */
  lemma {:induction false} RenderIsJoin(entries: seq<Entry>)
    ensures Render(entries) == Join(OutputLines(entries) + [[]], '\n')
    decreases |entries|
  {
    if entries != [] {
      var e := entries[0];
      var lines := CardLines(e.fullName, e.company, e.phone);
      var rest := OutputLines(entries[1..]) + [[]];
      RenderIsJoin(entries[1..]);
      JoinConcat(lines, rest, '\n');
      assert OutputLines(entries) + [[]] == lines + rest;
    }
  }

  /** No output line contains a line feed when no display name and no phone
      does. */
  lemma {:induction false} OutputLinesNoLineFeed(entries: seq<Entry>)
    requires forall k :: 0 <= k < |entries| ==>
      '\n' !in DisplayName(entries[k].fullName, entries[k].company) && '\n' !in entries[k].phone
    ensures forall i :: 0 <= i < |OutputLines(entries)| ==> '\n' !in OutputLines(entries)[i]
    decreases |entries|
  {
    if entries != [] {
      var e := entries[0];
      var lines := CardLines(e.fullName, e.company, e.phone);
      var rest := OutputLines(entries[1..]);
      assert forall k :: 0 <= k < |entries| - 1 ==> entries[1..][k] == entries[k + 1];
      OutputLinesNoLineFeed(entries[1..]);
      CardLinesNoLineFeed(e.fullName, e.company, e.phone);
      NoSeparatorInPieces(lines, rest, '\n');
      assert OutputLines(entries) == lines + rest;
    }
  }

  lemma {:induction false} PhonesAt(entries: seq<Entry>)
    ensures |Phones(entries)| == |entries|
    ensures forall i :: 0 <= i < |entries| ==> Phones(entries)[i] == entries[i].phone
    decreases |entries|
  {
    if entries != [] {
      PhonesAt(entries[1..]);
    }
  }

  lemma {:induction false} OutputTelValuesArePhones(entries: seq<Entry>)
    ensures TelValues(OutputLines(entries)) == Phones(entries)
    decreases |entries|
  {
    if entries != [] {
      var e := entries[0];
      OutputTelValuesArePhones(entries[1..]);
      TelValuesAppend(CardLines(e.fullName, e.company, e.phone), OutputLines(entries[1..]));
      CardTelValues(e.fullName, e.company, e.phone);
    }
  }

  /** Trimming keeps a cell free of line feeds. */
  lemma TableNoLineFeed(rows: seq<Row>)
    requires forall k :: 0 <= k < |rows| ==> '\n' !in Cell(rows[k], NameColumn) && '\n' !in Cell(rows[k], CompanyColumn)
    ensures forall k :: 0 <= k < |rows| ==> '\n' !in Table(rows)[k].fullName && '\n' !in Table(rows)[k].company
  {
    forall k | 0 <= k < |rows|
      ensures '\n' !in Table(rows)[k].fullName && '\n' !in Table(rows)[k].company
    {
      StripKeepsCharacters(Cell(rows[k], NameColumn), '\n');
      StripKeepsCharacters(Cell(rows[k], CompanyColumn), '\n');
    }
  }

  /** The output text read back line by line is the lines of the written
      cards followed by one empty piece after the final line feed; its TEL
      values are the written phones, all distinct, digits only. Holds when no
      name or company field contains a line feed. */
  lemma OutputTelValues(table: seq<Fields>)
    requires forall k :: 0 <= k < |table| ==> '\n' !in table[k].fullName && '\n' !in table[k].company
    ensures var entries := Accepted(table);
      var lines := Split(Render(entries), '\n');
      lines == OutputLines(entries) + [[]]
      && TelValues(lines) == Phones(entries)
      && (forall i, j :: 0 <= i < j < |TelValues(lines)| ==> TelValues(lines)[i] != TelValues(lines)[j])
      && (forall i :: 0 <= i < |TelValues(lines)| ==> TelValues(lines)[i] != [] && AllDigits(TelValues(lines)[i]))
  {
    var entries := Accepted(table);
    AcceptedFromRows(table);
    AcceptedPhonesDistinct(table);
    forall n | 0 <= n < |entries|
      ensures '\n' !in DisplayName(entries[n].fullName, entries[n].company) && '\n' !in entries[n].phone
    {
      var e := entries[n];
      assert e in entries;
      var k :| 0 <= k < |table| && e == EntryOf(table[k]);
      DisplayNameNoLineFeed(e.fullName, e.company);
      assert !IsDigit('\n');
    }
    RenderIsJoin(entries);
    OutputLinesNoLineFeed(entries);
    var all := OutputLines(entries) + [[]];
    assert forall i :: 0 <= i < |all| - 1 ==> all[i] == OutputLines(entries)[i];
    SplitJoin(all, '\n');
    TelValuesAppend(OutputLines(entries), [[]]);
    OutputTelValuesArePhones(entries);
    PhonesAt(entries);
  }

  /** Without the line-feed condition the TEL values can repeat: a row whose
      trimmed name is `x`, a line feed, "TEL;TYPE=CELL:" and its own phone is
      written as one card, and that card alone reads back with the phone as
      its first and its last TEL value. */
  lemma LineFeedInNameRepeatsTel(x: string, phone: string)
    requires '\n' !in x && phone != [] && AllDigits(phone)
    ensures var f := Fields(x + "\n" + TelPrefix + phone, "", phone);
      var tels := TelValues(Split(Render(Accepted([f])), '\n'));
      |Accepted([f])| == 1 && |tels| == 3 && tels[0] == phone && tels[2] == phone
  {
    var f := Fields(x + "\n" + TelPrefix + phone, "", phone);
    KeepDigitsOfDigits(phone);
    AcceptedSnoc([], f);
    assert [] + [f] == [f];
    var e := EntryOf(f);
    assert Accepted([f]) == [e];
    assert [e][1..] == [];
    assert Render([e]) == GenerateCard(e.fullName, e.company, e.phone);
    assert '\n' !in phone by {
      assert forall i :: 0 <= i < |phone| ==> IsDigit(phone[i]);
    }
    LineFeedInNameAddsTelLines(x, phone);
  }

  /** The text `ProcessContacts` writes for `rows` has pairwise distinct,
      digit-only TEL values, provided no name or company cell contains a line
      feed. */
  lemma OutputFileTelValuesDistinct(rows: seq<Row>)
    requires forall k :: 0 <= k < |rows| ==> '\n' !in Cell(rows[k], NameColumn) && '\n' !in Cell(rows[k], CompanyColumn)
    ensures var tels := TelValues(Split(Render(Accepted(Table(rows))), '\n'));
      (forall i, j :: 0 <= i < j < |tels| ==> tels[i] != tels[j])
      && (forall i :: 0 <= i < |tels| ==> tels[i] != [] && AllDigits(tels[i]))
  {
    TableNoLineFeed(rows);
    OutputTelValues(Table(rows));
  }
}
