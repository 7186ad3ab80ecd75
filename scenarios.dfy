/** Worked examples, stated for the model: one row rendered end to end, and
    two rows with the same number written differently. */
module Scenarios {
  import opened Text
  import opened VCard
  import opened Contacts

  lemma CleanJaneDoePhoneHead(head: string)
    requires head == "+1 (555)"
    ensures KeepDigits(head) == "1555"
  {
    var p0 := "+";
    KeepDigitsEmpty(p0);
    var p1 := p0 + "1";
    KeepDigitsAppendDigits(p0, "1");
    var p2 := p1 + " (";
    KeepDigitsAppendNoDigits(p1, " (");
    var p3 := p2 + "555";
    KeepDigitsAppendDigits(p2, "555");
    KeepDigitsAppendNoDigits(p3, ")");
    assert p3 + ")" == head;
  }

  lemma CleanJaneDoePhoneTail(head: string, tail: string)
    requires KeepDigits(head) == "1555" && tail == " 123-4567"
    ensures KeepDigits(head + tail) == "15551234567"
  {
    var p4 := head + " ";
    KeepDigitsAppendNoDigits(head, " ");
    var p5 := p4 + "123";
    KeepDigitsAppendDigits(p4, "123");
    var p6 := p5 + "-";
    KeepDigitsAppendNoDigits(p5, "-");
    KeepDigitsAppendDigits(p6, "4567");
    assert p6 + "4567" == head + tail;
  }

  /** "+1 (555) 123-4567" cleans to "15551234567": the plus sign, the
      parentheses, the spaces and the hyphen go, the digits stay in order. */
  lemma CleanJaneDoePhone(phone: string)
    requires phone == "+1 (555) 123-4567"
    ensures KeepDigits(phone) == "15551234567"
  {
    var head, tail := "+1 (555)", " 123-4567";
    assert phone == head + tail;
    CleanJaneDoePhoneHead(head);
    CleanJaneDoePhoneTail(head, tail);
  }

  /** Trimming leaves the three cells of the Jane Doe row as they are. */
  lemma JaneDoeFields(row: Row)
    requires row == map[NameColumn := "Jane Doe", CompanyColumn := "Acme Inc", PhoneColumn := "+1 (555) 123-4567"]
    ensures Extract(row) == Fields("Jane Doe", "Acme Inc", "+1 (555) 123-4567")
  {
    var name, company, phone := "Jane Doe", "Acme Inc", "+1 (555) 123-4567";
    assert Cell(row, NameColumn) == name;
    assert Cell(row, CompanyColumn) == company;
    assert Cell(row, PhoneColumn) == phone;
    StripUnchanged(name);
    StripUnchanged(company);
    StripUnchanged(phone);
  }

  /** The row ("Jane Doe", "Acme Inc", "+1 (555) 123-4567") alone gives one
      card, with display name "Jane Doe (Acme Inc)" and TEL 15551234567, and
      the output text is exactly that card's six lines. */
  lemma JaneDoeRow(row: Row)
    requires row == map[NameColumn := "Jane Doe", CompanyColumn := "Acme Inc", PhoneColumn := "+1 (555) 123-4567"]
    ensures Accepted(Table([row])) == [Entry("Jane Doe", "Acme Inc", "15551234567")]
    ensures Split(Render(Accepted(Table([row]))), '\n')
      == ["BEGIN:VCARD", "VERSION:3.0", "FN:Jane Doe (Acme Inc)", "N:;Jane Doe (Acme Inc);;;",
          "TEL;TYPE=CELL:15551234567", "END:VCARD", ""]
  {
    var name, company, phone, cleaned := "Jane Doe", "Acme Inc", "+1 (555) 123-4567", "15551234567";
    JaneDoeFields(row);
    var f := Fields(name, company, phone);
    assert Table([row]) == [f];
    CleanJaneDoePhone(phone);
    AcceptedSnoc([], f);
    assert [] + [f] == [f];
    var e := Entry(name, company, cleaned);
    assert Accepted([f]) == [e];
    assert Render([e]) == GenerateCard(name, company, cleaned) + Render([e][1..]);
    assert Render([e]) == GenerateCard(name, company, cleaned);
    JaneDoeCard(name, company, cleaned);
  }

  lemma CleanPunctuatedPhone(phone: string)
    requires phone == "555-1234"
    ensures KeepDigits(phone) == "5551234"
  {
    var p0 := "555";
    KeepDigitsOfDigits(p0);
    var p1 := p0 + "-";
    KeepDigitsAppendNoDigits(p0, "-");
    KeepDigitsAppendDigits(p1, "1234");
    assert p1 + "1234" == phone;
  }

  /** Rows with phones "555-1234" and "5551234", whatever their names: both
      clean to 5551234, only the first row's card is written, and the count
      is 1. */
  lemma DuplicateNumberRows(first: Row, second: Row)
    requires Cell(first, PhoneColumn) == "555-1234" && Cell(second, PhoneColumn) == "5551234"
    ensures Accepted(Table([first, second])) == [EntryOf(Extract(first))]
    ensures EntryOf(Extract(first)).phone == "5551234"
    ensures |Accepted(Table([first, second]))| == 1
  {
    var p1, p2 := Cell(first, PhoneColumn), Cell(second, PhoneColumn);
    StripUnchanged(p1);
    StripUnchanged(p2);
    CleanPunctuatedPhone(p1);
    KeepDigitsOfDigits(p2);
    assert Table([first, second]) == [Extract(first), Extract(second)];
    SamePhoneTwice(Extract(first), Extract(second));
  }
}
