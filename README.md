# Contact sheet to vCard converter, modelled in Dafny

The converter reads contact rows from a spreadsheet. Each row has a full name, a company and a phone number. It writes one vCard 3.0 block per unique phone number into a text file. It does this in three steps:

- It trims the name, company and phone cells.
- It drops rows with neither a name nor a phone.
- It cleans each phone down to its digits, and drops rows whose cleaned phone is empty or was already written.

Each remaining row produces a six-line card: BEGIN, VERSION, FN, N, TEL, END. Cards appear in row order, and the first row with a given number wins. The summary count is the number of distinct phones written.

The project has four modules, one per file:

- `Text` (`text.dfy`) holds the string operations the converter relies on:
  - Python's `str.strip()` (`Strip`) and its whitespace class (`IsSpace`);
  - the substitution that deletes every non-digit (`KeepDigits`);
  - `str.join` (`Join`) and, as its reader-side partner, `str.split` (`Split`).
- `VCard` (`vcard.dfy`) models `generate_vcf_card`: the display name, the six card lines and the card text.
- `Contacts` (`contacts.dfy`) models `process_contacts`.
  - `Contacts.ProcessContacts` is a method with the source's loop, its local set of processed phones and its accumulating output text.
  - Its specification is `Accepted`, a left fold of the per-row decision `Decide` over the trimmed rows (`Table`). The written phones act as the exclusion set.
  - `FirstOccurrences` is an independent reference definition (first occurrence wins), and a lemma proves the fold equal to it.
- `Scenarios` (`scenarios.dfy`) holds worked examples, proved about the model.

Each card ends with a single line feed after `END:VCARD`, so cards follow one another with no blank line between them. `VCard.CardLayout` states this: a card read back line by line is its six lines plus one empty piece after the final line feed.

The generator escapes nothing inside a property value, so a name cell that holds a line feed breaks the card's line structure. A name such as `x`, line feed, `TEL;TYPE=CELL:1`, written with phone 1, yields a card that reads back with three TEL values, `1`, `1;;;` and `1`. The written text then repeats a TEL value even though the loop writes each phone once (`Contacts.LineFeedInNameRepeatsTel`). The text-level distinctness lemmas therefore hold only for name and company cells without line feeds.

One observation about the loop. Its blank-row test (name and phone both empty) never decides anything on its own: an empty phone always cleans to the empty string, so the next test would skip the row anyway. `Contacts.DecideWrites` states this.

## Model

| member | source | states |
|---|---|---|
| Contacts.ProcessContacts | vcf.py:85-122 | The loop's output text is the concatenation, in row order, of the cards of the entries the fold accepts. Its count, the size of the set of processed phones, equals the number of cards written. |
| Contacts.DecideWrites | vcf.py:103-112 | A row is written exactly when its cleaned phone is non-empty and not yet written; the blank-row test never decides on its own. A written entry carries the trimmed name, the trimmed company and the cleaned phone. |
| Contacts.AcceptedSnoc | vcf.py:103-119 | Processing one more row appends its entry exactly when its cleaned phone is non-empty and not among the written phones, and otherwise leaves the written entries unchanged. |
| Contacts.BlankRowSkipped | vcf.py:103-105 | A row whose trimmed name and trimmed phone are both empty is decided a blank skip and adds nothing to the output or the seen set. |
| Contacts.NoDigitsRowSkipped | vcf.py:107-112 | A row whose phone has no digit produces no card, whatever its name. |
| Contacts.DuplicateRowSkipped | vcf.py:110-112 | A row whose cleaned phone was already written is decided a duplicate and adds nothing. |
| Contacts.AcceptedFromRows | vcf.py:108-116 | Every written entry is the entry of some input row, and its phone is a non-empty string of digits. |
| Contacts.AcceptedPhonesDistinct | vcf.py:92-119 | No two written entries share a phone. |
| Contacts.AcceptedCount | vcf.py:119-122 | The number of distinct phones in the seen set equals the number of cards written, so the summary count is the card count. |
| Contacts.SeenSetOfRows | vcf.py:92-119 | After the loop the seen set is exactly the set of non-empty cleaned phones of all rows. |
| Contacts.AcceptedPrefix | vcf.py:97-119 | The entries written after a prefix of the rows are a prefix of the final entries, and the seen set only grows. |
| Contacts.PhoneSetPrefix | vcf.py:119 | The phone set of a prefix of the entries is contained in that of the whole. |
| Contacts.AcceptedIsFirstOccurrences | vcf.py:97-119 | First occurrence wins: the written entries are exactly those of the rows that first carry each non-empty cleaned phone, in row order. |
| Contacts.SamePhoneTwice | vcf.py:111 | Two rows whose phones clean to the same non-empty digits give one card, the first row's. |
| Contacts.RenderIsJoin | vcf.py:82-116 | The output text is the line-feed join of all card lines followed by a final empty piece: every line ends with a line feed. |
| Contacts.OutputLinesNoLineFeed | vcf.py:70-116 | No output line contains a line feed when no display name or phone does. |
| Contacts.OutputTelValuesArePhones | vcf.py:79-116 | The TEL values among the output lines are the written phones, in order. |
| Contacts.PhonesAt | vcf.py:115 | The phone list has one element per entry, and element i is entry i's phone. |
| Contacts.TableNoLineFeed | vcf.py:99-100 | Trimming cannot introduce a line feed into a name or company field. |
| Contacts.OutputTelValues | vcf.py:97-119 | Provided no name or company field holds a line feed: read back line by line, the output is the written cards' lines, and its TEL values are the written phones (pairwise distinct, non-empty, digits only). |
| Contacts.LineFeedInNameRepeatsTel | vcf.py:97-119 | Without that condition TEL values can repeat: a row whose name is `x`, line feed, TEL prefix, phone is written as one card, yet the text reads back with three TEL values, the first and the last both that phone. |
| Contacts.OutputFileTelValuesDistinct | vcf.py:85-122 | For any rows whose name and company cells hold no line feed, the text the loop writes has pairwise distinct, digit-only TEL values. |
| Contacts.TableCleanedPhone | vcf.py:101-108 | Trimming does not change the deduplication key: a row's cleaned phone is the digits of its raw phone cell. |
| Contacts.TableSnoc | vcf.py:97 | The table of one more row is the old table plus that row's fields. |
| Contacts.RenderSnoc | vcf.py:116 | Writing one more card appends exactly its text to the output. |
| Contacts.PhoneSetSnoc | vcf.py:119 | Adding an entry adds exactly its phone to the phone set. |
| VCard.CardLayout | vcf.py:66-82 | Provided neither the display name nor the phone holds a line feed: read back line by line, a card is exactly its six lines (BEGIN:VCARD, VERSION:3.0, FN with the display name, N with the display name as given name, TEL with the phone, END:VCARD), each ended by a line feed. |
| VCard.CardIsTerminatedLines | vcf.py:82 | Joining the lines and adding a line feed equals joining the lines followed by one empty piece. |
| VCard.CardLinesNoLineFeed | vcf.py:70-81 | No card line contains a line feed when neither the display name nor the phone does. |
| VCard.DisplayNameNoLineFeed | vcf.py:66 | The display name holds no line feed when neither part does. |
| VCard.StructuredNameComponents | vcf.py:75-77 | Provided the display name holds no ';': the N value splits on ';' into five components, all empty except the given name, which is the display name. |
| VCard.CardTelValues | vcf.py:78-79 | A card has exactly one TEL line, and it carries the phone given to the generator. |
| VCard.TelValuesAppend | vcf.py:79 | The TEL values of two line lists concatenated are the concatenation of their TEL values. |
| VCard.JaneDoeCard | vcf.py:52-82 | The card for "Jane Doe", "Acme Inc", "15551234567" read back line by line is BEGIN:VCARD, VERSION:3.0, FN:Jane Doe (Acme Inc), N:;Jane Doe (Acme Inc);;;, TEL;TYPE=CELL:15551234567, END:VCARD and a final empty piece. |
| VCard.LineFeedInNameAddsTelLines | vcf.py:66-82 | A full name `x`, line feed, TEL prefix, phone (company empty) splits the FN and N lines in two: the card reads back as nine pieces whose TEL values are the phone, the phone followed by ";;;", and the phone again. |
| VCard.TelOfTel | vcf.py:79 | A line made of the TEL prefix and a value is a TEL line with that value. |
| VCard.TelOfOther | vcf.py:71-80 | A line whose first character is not T is no TEL line. |
| VCard.TelValuesOfThree | vcf.py:79 | The TEL values of three lines are those of each line in turn. |
| VCard.GenerateCard | vcf.py:52-82 | Definition: the card text is the line-feed join of the six card lines plus a final line feed. Its properties are stated by `VCard.CardLayout`, `VCard.CardTelValues` and `VCard.CardIsTerminatedLines`. |
| VCard.DisplayName | vcf.py:66 | Definition: the full name followed by " (", the company and ")" when the company is non-empty, else the full name alone. Its properties are stated by `VCard.DisplayNameNoLineFeed` and `VCard.CardLayout`. |
| VCard.CardLines | vcf.py:70-81 | Definition: the six lines BEGIN, VERSION, FN, N, TEL and END in that order, built from the display name and the phone. Its properties are stated by `VCard.CardLinesNoLineFeed`, `VCard.StructuredNameComponents` and `VCard.CardTelValues`. |
| Contacts.Cell | vcf.py:99-101 | Definition: a row's cell under a column header, or "" when the row has no such column. Its properties are stated through `Contacts.Extract`. |
| Contacts.Extract | vcf.py:99-101 | Definition: a row's trimmed full name, company and phone cells. Its properties are stated by `Contacts.TableCleanedPhone` and `Contacts.TableNoLineFeed`. |
| Contacts.Decide | vcf.py:103-112 | Definition: the per-row decision, testing blank row, then no digits, then duplicate phone, else write. Its properties are stated by `Contacts.DecideWrites`, `Contacts.BlankRowSkipped`, `Contacts.NoDigitsRowSkipped` and `Contacts.DuplicateRowSkipped`. |
| Contacts.Table | vcf.py:97-101 | Definition: the trimmed name, company and phone fields of every row, in row order, as the loop reads them. Its properties are stated by `Contacts.TableCleanedPhone`, `Contacts.TableNoLineFeed` and `Contacts.TableSnoc`. |
| Contacts.CleanedPhone | vcf.py:108 | Definition: the digits of a row's trimmed phone, the key on which rows are deduplicated. Its properties are stated by `Contacts.DecideWrites`, `Contacts.AcceptedFromRows` and `Contacts.TableCleanedPhone`. |
| Contacts.PhoneSet | vcf.py:92-119 | Definition: the set of phones of the entries written so far, which stands for the loop's set of processed phones. Its properties are stated by `Contacts.PhoneSetSnoc`, `Contacts.AcceptedCount` and `Contacts.SeenSetOfRows`. |
| Contacts.Render | vcf.py:116 | Definition: the text the loop writes, the cards of the entries one after another in row order. Its properties are stated by `Contacts.RenderIsJoin`, `Contacts.RenderSnoc`, `Contacts.OutputTelValues` and `Contacts.ProcessContacts`. |
| Contacts.Accepted | vcf.py:97-119 | Definition: the entries written for a table, a left fold of `Decide` with the phones written so far as the seen set. Its properties are stated by `Contacts.AcceptedSnoc`, `Contacts.AcceptedIsFirstOccurrences`, `Contacts.AcceptedPhonesDistinct`, `Contacts.AcceptedCount` and `Contacts.SeenSetOfRows`. |
| Text.Strip | vcf.py:99-101 | Definition: Python's `str.strip()` with no argument, removing leading and then trailing whitespace. Its properties are stated by `Text.StripMiddle`, `Text.StripIdempotent`, `Text.StripEmptyIffAllSpace` and `Text.StripKeepsDigits`. |
| Text.KeepDigits | vcf.py:108 | Definition: the input with every character other than '0'..'9' removed, in order. Its properties are stated by `Text.KeepDigitsAllDigits`, `Text.KeepDigitsEmpty`, `Text.KeepDigitsAppend` and `Text.KeepDigitsCounts`. |
| Text.Join | vcf.py:82 | Definition: Python's `str.join`, the pieces with one separator between neighbours. Its properties are stated by `Text.SplitJoin`, `Text.JoinSplit` and `Text.JoinConcat`. |
| Text.StripLeftSuffix | vcf.py:99-101 | Left trimming keeps a suffix, removes only whitespace, and the result does not begin with whitespace. |
| Text.StripRightPrefix | vcf.py:99-101 | Right trimming keeps a prefix, removes only whitespace, and the result does not end with whitespace. |
| Text.StripMiddle | vcf.py:99-101 | Trimming keeps a contiguous middle slice with only whitespace on either side, and the slice neither begins nor ends with whitespace. |
| Text.StripUnchanged | vcf.py:99-101 | A string that neither begins nor ends with whitespace is its own trim. |
| Text.StripIdempotent | vcf.py:99-101 | Trimming twice is trimming once. |
| Text.StripEmptyIffAllSpace | vcf.py:99-104 | A cell trims to the empty string exactly when it is all whitespace. |
| Text.StripKeepsCharacters | vcf.py:99-101 | Trimming never introduces a character. |
| Text.StripKeepsDigits | vcf.py:101-108 | Trimming does not change the digits a string holds or their order, since whitespace holds no digit. |
| Text.KeepDigitsAllDigits | vcf.py:107-108 | The cleaned phone holds digits only and is no longer than the input. |
| Text.KeepDigitsEmpty | vcf.py:108-111 | The cleaned phone is empty exactly when the input has no digit. |
| Text.KeepDigitsAppend | vcf.py:108 | Cleaning distributes over concatenation. |
| Text.KeepDigitsAppendDigits | vcf.py:108 | Appending digits appends them to the cleaned phone. |
| Text.KeepDigitsAppendNoDigits | vcf.py:108 | Appending non-digits leaves the cleaned phone unchanged. |
| Text.KeepDigitsOfDigits | vcf.py:108 | A string of digits cleans to itself. |
| Text.KeepDigitsOfSpace | vcf.py:108 | A string of whitespace cleans to the empty string. |
| Text.KeepDigitsIdempotent | vcf.py:108 | Cleaning a cleaned phone changes nothing. |
| Text.KeepDigitsCounts | vcf.py:108 | Every digit occurs in the result as often as in the input, and no other character occurs at all. |
| Text.NoSeparatorConcat | vcf.py:74-79 | A character absent from two strings is absent from their concatenation. |
| Text.NoSeparatorInPieces | vcf.py:116 | Lists of pieces free of a separator stay free of it when concatenated. |
| Text.JoinSplit | vcf.py:82 | Joining the pieces of a split gives back the string. |
| Text.SplitNoSeparator | vcf.py:82 | A string without the separator splits into itself alone. |
| Text.SplitAtFirstSeparator | vcf.py:82 | Splitting at the first separator yields the separator-free head, then the split of the rest. |
| Text.SplitJoin | vcf.py:82 | Splitting a join of separator-free pieces gives back the pieces. |
| Text.JoinConcat | vcf.py:82-116 | Joining two non-empty piece lists puts exactly one separator between their joins. |
| Text.JoinInnerSeparator | vcf.py:82 | A piece that holds the separator joins exactly like the two pieces on either side of that separator. |
| Text.Split | vcf.py:82 | A split has at least one piece and no piece contains the separator. |
| Scenarios.CleanJaneDoePhone | vcf.py:108 | "+1 (555) 123-4567" cleans to "15551234567". |
| Scenarios.JaneDoeFields | vcf.py:99-101 | Trimming leaves the three Jane Doe cells unchanged. |
| Scenarios.JaneDoeRow | vcf.py:85-122 | The single row ("Jane Doe", "Acme Inc", "+1 (555) 123-4567") is written as one card, "Jane Doe (Acme Inc)" with TEL 15551234567, and the output text is exactly that card's six lines. |
| Scenarios.CleanPunctuatedPhone | vcf.py:108 | "555-1234" cleans to "5551234". |
| Scenarios.DuplicateNumberRows | vcf.py:108-122 | Rows with phones "555-1234" and "5551234" give one card, the first row's, with phone 5551234; the count is 1. |

## Left out

- `read_contacts` (vcf.py:27-49), which loads the spreadsheet through pandas and replaces empty cells with "", is not modelled. The model starts from the loaded rows: each row is a map from column header to cell text, and a missing column reads as "".
- The `str()` coercion of non-string cells (vcf.py:99-101) is not modelled. The model assumes the name, company and phone cells are already text. `fillna("")` (vcf.py:41) replaces only missing cells, so numeric and date cells reach the loop as numbers or timestamps (a pandas Timestamp's `str()` reads like "2024-01-05 00:00:00"). The model therefore misses that a phone column read as floating point turns 5551234 into "5551234.0", which cleans to "55512340".
- File I/O is not modelled: opening, writing and closing the output file with UTF-8 encoding. The model returns the text handed to `write` instead, and a write failure has no counterpart. That text is the string before newline translation: the file is opened in text mode with the default `newline=None` (vcf.py:95), so each "\n" is written as the platform's line separator (CRLF on Windows). Every statement here about line feeds concerns the string the generator builds, not the bytes on disk.
- The progress and summary `print` calls are not modelled. The summary's number is the method's `count` result.
- `main` and `sys.exit` are not modelled: the orchestration that halts with exit code 1 when loading fails.
- Unicode digits: `\D` in a Python `str` pattern also matches non-ASCII decimal digits (Unicode category Nd). The model keeps only '0'..'9'.
- Whitespace is the fixed set for which Python's `str.isspace()` holds (ASCII whitespace, the separator controls U+001C..U+001F and the Unicode spaces). It is not derived from the Unicode database.
- The model does not escape ';', ',' or line feeds in property values, and the string the generator builds ends its lines with a bare line feed rather than the CRLF of RFC 2426. It follows the code, which escapes nothing and joins with "\n"; the line separator that then reaches the file depends on the platform, as the File I/O line says. The read-back lemmas therefore require names and companies without line feeds (`Contacts.OutputTelValues`; `Contacts.LineFeedInNameRepeatsTel` shows what happens otherwise), and the N components lemma requires a display name without ';' (`VCard.StructuredNameComponents`).
- Rerunning on the same input gives the same output. The model needs no separate statement of this, because every member is a deterministic function of its inputs.
