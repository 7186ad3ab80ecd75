/** The card generator: the text of one vCard 3.0 block (RFC 2426) for a
    contact, with the FN, N and TEL properties the converter fills in. */
module VCard {
  import opened Text

  const TelPrefix: string := "TEL;TYPE=CELL:"

  /** The name shown in the contact list: the company, when there is one,
      follows the full name in parentheses. */
  function DisplayName(fullName: string, company: string): string
  {
    if company != [] then fullName + " (" + company + ")" else fullName
  }

  /** The six lines of a card, in order. */
  function CardLines(fullName: string, company: string, phone: string): seq<string>
  {
    var name := DisplayName(fullName, company);
    ["BEGIN:VCARD", "VERSION:3.0", "FN:" + name, "N:;" + name + ";;;", TelPrefix + phone, "END:VCARD"]
  }

  /** `generate_vcf_card`: the lines joined with a line feed, plus a final
      line feed. */
  function GenerateCard(fullName: string, company: string, phone: string): string
  {
    Join(CardLines(fullName, company, phone), '\n') + "\n"
  }

  /** The card is the line-feed join of its six lines followed by one empty
      piece, i.e. every line is terminated by a line feed. */
  lemma CardIsTerminatedLines(fullName: string, company: string, phone: string)
    ensures GenerateCard(fullName, company, phone) == Join(CardLines(fullName, company, phone) + [[]], '\n')
  {
    JoinConcat(CardLines(fullName, company, phone), [[]], '\n');
  }

  lemma DisplayNameNoLineFeed(fullName: string, company: string)
    requires '\n' !in fullName && '\n' !in company
    ensures '\n' !in DisplayName(fullName, company)
  {
  }

  /** Read back line by line, a card is exactly six lines, each ended by a
      line feed: BEGIN, VERSION, FN with the display name, N with the display
      name as given name, TEL with the phone, END. Holds when neither the
      display name nor the phone contains a line feed. */
  lemma {:induction false} CardLayout(fullName: string, company: string, phone: string)
    requires '\n' !in DisplayName(fullName, company) && '\n' !in phone
    ensures var name := DisplayName(fullName, company);
      Split(GenerateCard(fullName, company, phone), '\n')
      == ["BEGIN:VCARD", "VERSION:3.0", "FN:" + name, "N:;" + name + ";;;",
          "TEL;TYPE=CELL:" + phone, "END:VCARD", ""]
  {
    var lines := CardLines(fullName, company, phone) + [[]];
    CardIsTerminatedLines(fullName, company, phone);
    CardLinesNoLineFeed(fullName, company, phone);
    assert forall i :: 0 <= i < |lines| - 1 ==> lines[i] == CardLines(fullName, company, phone)[i];
    SplitJoin(lines, '\n');
  }

  /** No line of a card contains a line feed when neither the display name
      nor the phone does. */
  lemma CardLinesNoLineFeed(fullName: string, company: string, phone: string)
    requires '\n' !in DisplayName(fullName, company) && '\n' !in phone
    ensures forall i :: 0 <= i < |CardLines(fullName, company, phone)| ==> '\n' !in CardLines(fullName, company, phone)[i]
  {
    var name := DisplayName(fullName, company);
    NoSeparatorConcat("FN:", name, '\n');
    NoSeparatorConcat("N:;", name, '\n');
    NoSeparatorConcat("N:;" + name, ";;;", '\n');
    NoSeparatorConcat(TelPrefix, phone, '\n');
  }

  /** The value of the N line has the five components of RFC 2426 section
      3.1.2 (family, given, additional, prefixes, suffixes): all empty except
      the given name, which is the display name -- provided the display name
      holds no ';', which the generator does not escape. */
  lemma {:induction false} StructuredNameComponents(fullName: string, company: string)
    requires ';' !in DisplayName(fullName, company)
    ensures var name := DisplayName(fullName, company);
      var line := CardLines(fullName, company, "")[3];
      |line| >= 2 && line[..2] == "N:" && Split(line[2..], ';') == ["", name, "", "", ""]
  {
    var name := DisplayName(fullName, company);
    var line := "N:;" + name + ";;;";
    var parts: seq<string> := ["", name, "", "", ""];
    assert Join(parts[4..], ';') == "";
    assert Join(parts[3..], ';') == ";";
    assert Join(parts[2..], ';') == ";;";
    assert Join(parts[1..], ';') == name + ";;;";
    assert line[2..] == ";" + name + ";;;";
    assert CardLines(fullName, company, "")[3] == line;
    assert Join(parts, ';') == line[2..];
    forall i | 0 <= i < |parts| ensures ';' !in parts[i] {
    }
    SplitJoin(parts, ';');
    assert Split(line[2..], ';') == parts;
    assert |line| >= 2 && line[..2] == "N:";
  }

  /** The values of the TEL lines among `lines`, in order. */
  function TelValues(lines: seq<string>): seq<string>
    decreases |lines|
  {
    if lines == [] then [] else TelOf(lines[0]) + TelValues(lines[1..])
  }

  /** The value of `line` when it is a TEL line: what follows the prefix. */
  function TelOf(line: string): seq<string>
  {
    if |TelPrefix| <= |line| && line[..|TelPrefix|] == TelPrefix then [line[|TelPrefix|..]] else []
  }

  lemma TelOfTel(value: string)
    ensures TelOf(TelPrefix + value) == [value]
  {
    assert (TelPrefix + value)[..|TelPrefix|] == TelPrefix;
    assert (TelPrefix + value)[|TelPrefix|..] == value;
  }

  /** A line that begins with some other letter than T is no TEL line. */
  lemma TelOfOther(line: string)
    requires line != [] && line[0] != 'T'
    ensures TelOf(line) == []
  {
    assert TelPrefix[0] == 'T';
  }

  lemma TelValuesOfThree(a: string, b: string, c: string)
    ensures TelValues([a, b, c]) == TelOf(a) + TelOf(b) + TelOf(c)
  {
    assert [c][1..] == [];
    assert TelValues([c]) == TelOf(c);
    assert [b, c][1..] == [c];
    assert TelValues([b, c]) == TelOf(b) + TelOf(c);
    assert [a, b, c][1..] == [b, c];
  }

  lemma {:induction false} TelValuesAppend(a: seq<string>, b: seq<string>)
    ensures TelValues(a + b) == TelValues(a) + TelValues(b)
    decreases |a|
  {
    if a == [] {
      assert a + b == b;
    } else {
      assert (a + b)[1..] == a[1..] + b;
      TelValuesAppend(a[1..], b);
    }
  }

  /** A card has one TEL line and it carries the phone given to the
      generator, whatever the display name is. */
  lemma CardTelValues(fullName: string, company: string, phone: string)
    ensures TelValues(CardLines(fullName, company, phone)) == [phone]
  {
    var name := DisplayName(fullName, company);
    var lines := CardLines(fullName, company, phone);
    var a, b := lines[..3], lines[3..];
    assert lines == a + b;
    assert a == [a[0], a[1], a[2]] && b == [b[0], b[1], b[2]];
    TelValuesOfThree(a[0], a[1], a[2]);
    TelValuesOfThree(b[0], b[1], b[2]);
    TelOfOther(a[0]);
    TelOfOther(a[1]);
    TelOfOther(a[2]);
    TelOfOther(b[0]);
    TelOfOther(b[2]);
    assert b[1] == TelPrefix + phone;
    TelOfTel(phone);
    TelValuesAppend(a, b);
  }

  /** The generator does not escape a line feed inside the full name. A name
      `x`, line feed, "TEL;TYPE=CELL:", `phone` therefore splits the FN and N
      lines in two, and the card read back has three TEL values, the first
      and the last both `phone`. */
  lemma LineFeedInNameAddsTelLines(x: string, phone: string)
    requires '\n' !in x && '\n' !in phone
    ensures var lines := Split(GenerateCard(x + "\n" + TelPrefix + phone, "", phone), '\n');
      lines == ["BEGIN:VCARD", "VERSION:3.0", "FN:" + x, TelPrefix + phone, "N:;" + x,
                TelPrefix + phone + ";;;", TelPrefix + phone, "END:VCARD", ""]
      && TelValues(lines) == [phone, phone + ";;;", phone]
  {
    var tel := TelPrefix + phone;
    var pieces := ["BEGIN:VCARD", "VERSION:3.0", "FN:" + x, tel, "N:;" + x, tel + ";;;", tel, "END:VCARD", ""];
    LineFeedInNameJoin(x, phone, pieces);
    NoSeparatorConcat("FN:", x, '\n');
    NoSeparatorConcat("N:;", x, '\n');
    NoSeparatorConcat(TelPrefix, phone, '\n');
    NoSeparatorConcat(tel, ";;;", '\n');
    SplitJoin(pieces, '\n');
    var a, b, c := pieces[..3], pieces[3..6], pieces[6..];
    assert pieces == a + b + c;
    PiecesTelValues(x, phone, a, b, c);
  }

  lemma LineFeedInNameJoin(x: string, phone: string, pieces: seq<string>)
    requires pieces == ["BEGIN:VCARD", "VERSION:3.0", "FN:" + x, TelPrefix + phone, "N:;" + x,
                        TelPrefix + phone + ";;;", TelPrefix + phone, "END:VCARD", ""]
    ensures GenerateCard(x + "\n" + TelPrefix + phone, "", phone) == Join(pieces, '\n')
  {
    var name := x + "\n" + TelPrefix + phone;
    var tel := TelPrefix + phone;
    var lines := CardLines(name, "", phone) + [[]];
    CardIsTerminatedLines(name, "", phone);
    assert lines == lines[..2] + [lines[2]] + lines[3..];
    assert lines[2] == ("FN:" + x) + "\n" + tel;
    JoinInnerSeparator(lines[..2], "FN:" + x, tel, lines[3..], '\n');
    var middle := lines[..2] + ["FN:" + x, tel] + lines[3..];
    assert middle == middle[..4] + [middle[4]] + middle[5..];
    assert middle[4] == ("N:;" + x) + "\n" + (tel + ";;;");
    JoinInnerSeparator(middle[..4], "N:;" + x, tel + ";;;", middle[5..], '\n');
    assert lines[..2] == ["BEGIN:VCARD", "VERSION:3.0"];
    assert lines[4..] == [tel, "END:VCARD", ""];
    assert middle[..4] == ["BEGIN:VCARD", "VERSION:3.0", "FN:" + x, tel];
    assert middle[5..] == lines[4..];
    assert middle[..4] + ["N:;" + x, tel + ";;;"] + middle[5..] == pieces;
  }

  lemma PiecesTelValues(x: string, phone: string, a: seq<string>, b: seq<string>, c: seq<string>)
    requires a == ["BEGIN:VCARD", "VERSION:3.0", "FN:" + x]
    requires b == [TelPrefix + phone, "N:;" + x, TelPrefix + phone + ";;;"]
    requires c == [TelPrefix + phone, "END:VCARD", ""]
    ensures TelValues(a + b + c) == [phone, phone + ";;;", phone]
  {
    TelValuesOfThree(a[0], a[1], a[2]);
    TelValuesOfThree(b[0], b[1], b[2]);
    TelValuesOfThree(c[0], c[1], c[2]);
    TelOfOther(a[0]);
    TelOfOther(a[1]);
    TelOfOther(a[2]);
    TelOfOther(b[1]);
    TelOfOther(c[1]);
    TelOfTel(phone);
    assert b[2] == TelPrefix + (phone + ";;;");
    TelOfTel(phone + ";;;");
    TelValuesAppend(a, b);
    TelValuesAppend(a + b, c);
  }

  /** The card of the scenario "Jane Doe", "Acme Inc", "15551234567", read
      back line by line. */
  lemma JaneDoeCard(fullName: string, company: string, phone: string)
    requires fullName == "Jane Doe" && company == "Acme Inc" && phone == "15551234567"
    ensures Split(GenerateCard(fullName, company, phone), '\n')
      == ["BEGIN:VCARD", "VERSION:3.0", "FN:Jane Doe (Acme Inc)", "N:;Jane Doe (Acme Inc);;;",
          "TEL;TYPE=CELL:15551234567", "END:VCARD", ""]
  {
    var name := DisplayName(fullName, company);
    assert name == "Jane Doe (Acme Inc)";
    var fn, n, tel := "FN:" + name, "N:;" + name + ";;;", "TEL;TYPE=CELL:" + phone;
    assert fn == "FN:Jane Doe (Acme Inc)";
    assert n == "N:;Jane Doe (Acme Inc);;;";
    assert tel == "TEL;TYPE=CELL:15551234567";
    CardLayout(fullName, company, phone);
  }
}
