/**
 * The shell's command dispatcher: the entered line is cut down to a command
 * name, the name is looked up by exact byte equality in a nine-entry table, and
 * the matching action writes its reply into the line buffer row below and onto
 * the screen.
 */
module Commands {
  import opened Types
  import opened Str
  import opened Constants
  import Vga
  import Datetime

  datatype Command = Hello | Time | TimeSet | Date | DateSet | Error | Reboot | Shutdown | Clear

  function Name(c: Command): string
  {
    match c
    case Hello => "hello"
    case Time => "time"
    case TimeSet => "time_set"
    case Date => "date"
    case DateSet => "date_set"
    case Error => "error"
    case Reboot => "reboot"
    case Shutdown => "shutdown"
    case Clear => "clear"
  }

  /** The command table, in the order it is searched. */
  const TABLE: seq<Command> := [Hello, Time, TimeSet, Date, DateSet, Error, Reboot, Shutdown, Clear]

  /** The bytes of an ASCII string. */
  function Ascii(s: string): (bytes: seq<u8>)
    requires forall i | 0 <= i < |s| :: s[i] as int < 0x80
    ensures |bytes| == |s| && forall i | 0 <= i < |s| :: bytes[i] == s[i] as int
  {
    seq(|s|, i requires 0 <= i < |s| => s[i] as int)
  }

  /** For ASCII text, the byte literal and the UTF-8 encoding agree. */
  lemma AsciiIsUtf8(s: string)
    requires forall i | 0 <= i < |s| :: s[i] as int < 0x80
    ensures Ascii(s) == Encode(s)
  {
    EncodeAscii(s);
  }

  function NameBytes(c: Command): seq<u8>
  {
    Ascii(Name(c))
  }

  /** Every command is in the table, under a name no other command has. */
  lemma TableComplete(c: Command, d: Command)
    ensures c in TABLE
    ensures NameBytes(c) == NameBytes(d) ==> c == d
  {
    if NameBytes(c) == NameBytes(d) {
      assert |NameBytes(c)| == |Name(c)| && NameBytes(c)[0] == Name(c)[0] as int;
      assert NameBytes(c)[|Name(c)| - 1] == Name(c)[|Name(c)| - 1] as int;
      assert |NameBytes(d)| == |Name(d)| && NameBytes(d)[0] == Name(d)[0] as int;
      assert NameBytes(d)[|Name(d)| - 1] == Name(d)[|Name(d)| - 1] as int;
      if |Name(c)| == 8 && Name(c)[0] == Name(d)[0] {
        assert NameBytes(c)[1] == Name(c)[1] as int && NameBytes(d)[1] == Name(d)[1] as int;
      }
    }
  }

  // ---------------------------------------------------------------------------
  // From the entered line to a command name

  /** Bytes that survive the name filter: anything but NUL and ASCII whitespace. */
  predicate IsNameByte(b: u8)
  {
    b != 0 && !IsAsciiWhitespace(b)
  }

  /** The bytes of `bytes` that are name bytes, in their order. */
  function KeptBytes(bytes: seq<u8>): (kept: seq<u8>)
    ensures |kept| <= |bytes|
    ensures forall i | 0 <= i < |kept| :: IsNameByte(kept[i])
  {
    if bytes == [] then []
    else
      var last := bytes[|bytes| - 1];
      KeptBytes(bytes[..|bytes| - 1]) + if IsNameByte(last) then [last] else []
  }

  /** A lone byte is kept exactly when it is a name byte. */
  lemma KeptBytesOne(b: u8)
    ensures KeptBytes([b]) == if IsNameByte(b) then [b] else []
  {
    assert [b][..0] == [];
  }

  /** The filter works byte by byte: filtering a concatenation concatenates the filtered parts, so every name byte is kept, in order. */
  lemma {:induction false} KeptBytesAppend(a: seq<u8>, b: seq<u8>)
    ensures KeptBytes(a + b) == KeptBytes(a) + KeptBytes(b)
  {
    if b == [] {
      assert a + b == a;
    } else {
      var init := b[..|b| - 1];
      KeptBytesAppend(a, init);
      assert (a + b)[..|a + b| - 1] == a + init;
      assert (a + b)[|a + b| - 1] == b[|b| - 1];
    }
  }

  /** The filter changes exactly those byte strings that hold a NUL or an ASCII whitespace byte. */
  lemma {:induction false} KeptBytesIdentity(bytes: seq<u8>)
    ensures KeptBytes(bytes) == bytes <==> forall i | 0 <= i < |bytes| :: IsNameByte(bytes[i])
  {
    if bytes != [] {
      var init := bytes[..|bytes| - 1];
      KeptBytesIdentity(init);
      if forall i | 0 <= i < |bytes| :: IsNameByte(bytes[i]) {
        assert forall i | 0 <= i < |init| :: IsNameByte(init[i]) by {
          forall i | 0 <= i < |init| ensures IsNameByte(init[i]) { assert init[i] == bytes[i]; }
        }
        assert init + [bytes[|bytes| - 1]] == bytes;
      }
    }
  }

  /** Filtering twice is filtering once. */
  lemma KeptBytesIdempotent(bytes: seq<u8>)
    ensures KeptBytes(KeptBytes(bytes)) == KeptBytes(bytes)
  {
    KeptBytesIdentity(KeptBytes(bytes));
  }

  /** The loop that builds `comm_filtered`. */
  method FilterName(bytes: seq<u8>) returns (filtered: seq<u8>)
    ensures filtered == KeptBytes(bytes)
  {
    filtered := [];
    for i := 0 to |bytes|
      invariant filtered == KeptBytes(bytes[..i])
    {
      assert bytes[..i + 1][..i] == bytes[..i];
      if bytes[i] != 0 && !IsAsciiWhitespace(bytes[i]) {
        filtered := filtered + [bytes[i]];
      }
    }
    assert bytes[..|bytes|] == bytes;
  }

  /** The name looked up: the part before the first space, trimmed, its bytes filtered. */
  function ParsedName(command: string): (name: seq<u8>)
    ensures forall i | 0 <= i < |name| :: IsNameByte(name[i])
  {
    KeptBytes(Encode(Trim(Before(command, ' '))))
  }

  /** For an ASCII line with no space and no whitespace at its ends, the name is the line's bytes, filtered. */
  lemma ParsedSpaceFree(line: string)
    requires forall i | 0 <= i < |line| :: line[i] as int < 0x80 && line[i] != ' '
    requires line != [] ==> !IsWhitespace(line[0]) && !IsWhitespace(line[|line| - 1])
    ensures ParsedName(line) == KeptBytes(Ascii(line))
  {
    assert IndexOf(line, ' ') == None;
    TrimNoop(line);
    AsciiIsUtf8(line);
  }

  /** Bytes that are all name bytes pass the filter unchanged. */
  lemma KeptBytesClean(p: seq<u8>)
    requires forall i | 0 <= i < |p| :: IsNameByte(p[i])
    ensures KeptBytes(p) == p
  {
    KeptBytesIdentity(p);
  }

  /** A byte that is not a name byte, between two runs of name bytes, is the only byte dropped. */
  lemma KeptBytesDropsInterior(p: seq<u8>, y: u8, q: seq<u8>)
    requires forall i | 0 <= i < |p| :: IsNameByte(p[i])
    requires forall i | 0 <= i < |q| :: IsNameByte(q[i])
    requires !IsNameByte(y)
    ensures KeptBytes(p + [y] + q) == p + q
  {
    var py := p + [y];
    KeptBytesAppend(p, [y]);
    KeptBytesOne(y);
    KeptBytesClean(p);
    assert KeptBytes(py) == p;
    KeptBytesAppend(py, q);
    KeptBytesClean(q);
  }

  /** The ASCII bytes of `a + [x] + b` are those of `a`, then `x`, then those of `b`. */
  lemma AsciiSplice(a: string, x: char, b: string)
    requires forall i | 0 <= i < |a| :: a[i] as int < 0x80
    requires forall i | 0 <= i < |b| :: b[i] as int < 0x80
    requires x as int < 0x80
    ensures Ascii(a + [x] + b) == Ascii(a) + [x as int] + Ascii(b)
    ensures Ascii(a + b) == Ascii(a) + Ascii(b)
  {
  }

  /** A word of ASCII name bytes with no whitespace in it. */
  predicate PlainWord(w: string)
  {
    forall i | 0 <= i < |w| :: w[i] as int < 0x80 && IsNameByte(w[i] as int) && !IsWhitespace(w[i])
  }

  /** Two plain words joined by a byte that is not a space form a line ParsedSpaceFree applies to. */
  lemma SpliceSpaceFree(a: string, x: char, b: string)
    requires a != [] && b != [] && PlainWord(a) && PlainWord(b)
    requires x as int < 0x80 && x != ' '
    ensures var line := a + [x] + b;
      (forall i | 0 <= i < |line| :: line[i] as int < 0x80 && line[i] != ' ')
      && !IsWhitespace(line[0]) && !IsWhitespace(line[|line| - 1])
  {
    var line := a + [x] + b;
    forall i | 0 <= i < |line| ensures line[i] as int < 0x80 && line[i] != ' ' {
      if i < |a| { assert line[i] == a[i]; }
      else if i > |a| { assert line[i] == b[i - |a| - 1]; }
    }
    assert line[0] == a[0] && line[|line| - 1] == b[|b| - 1];
  }

  /** The bytes of a plain word are name bytes. */
  lemma PlainWordBytes(w: string)
    requires PlainWord(w)
    ensures forall i | 0 <= i < |Ascii(w)| :: IsNameByte(Ascii(w)[i])
  {
  }

  /** A NUL, tab, line feed, form feed or carriage return inside a word is dropped from the name, and every other byte is kept. */
  lemma ParsedDropsInterior(a: string, x: char, b: string)
    requires a != [] && b != [] && PlainWord(a) && PlainWord(b)
    requires x as int < 0x80 && !IsNameByte(x as int) && x != ' '
    ensures ParsedName(a + [x] + b) == Ascii(a + b)
  {
    SpliceSpaceFree(a, x, b);
    ParsedSpaceFree(a + [x] + b);
    AsciiSplice(a, x, b);
    PlainWordBytes(a);
    PlainWordBytes(b);
    KeptBytesDropsInterior(Ascii(a), x as int, Ascii(b));
  }

  /** The first table entry whose name is `name`. */
  function LookupIn(table: seq<Command>, name: seq<u8>): (r: Option<Command>)
    ensures r.Some? ==> r.value in table && NameBytes(r.value) == name
    ensures r.None? ==> forall c | c in table :: NameBytes(c) != name
  {
    if table == [] then None
    else if NameBytes(table[0]) == name then Some(table[0])
    else LookupIn(table[1..], name)
  }

  function Lookup(name: seq<u8>): Option<Command>
  {
    LookupIn(TABLE, name)
  }

  /** A name is found exactly when it is some command's name, and then it is that command. */
  lemma LookupExact(name: seq<u8>, c: Command)
    ensures Lookup(name) == Some(c) <==> NameBytes(c) == name
  {
    TableComplete(c, c);
    if Lookup(name).Some? {
      TableComplete(c, Lookup(name).value);
    }
  }

  /** The dispatch loop over a command table. */
  method FindCommand(table: seq<Command>, name: seq<u8>) returns (found: Option<Command>)
    ensures found == LookupIn(table, name)
  {
    found := None;
    var i := 0;
    while i < |table|
      invariant 0 <= i <= |table|
      invariant LookupIn(table, name) == LookupIn(table[i..], name)
    {
      assert table[i..][1..] == table[i + 1..];
      if NameBytes(table[i]) == name {
        found := Some(table[i]);
        return;
      }
      i := i + 1;
    }
  }

  /** The action that runs: the command found, or `error_action` when there is none. */
  function Dispatched(command: string): Command
  {
    match Lookup(ParsedName(command))
    case Some(c) => c
    case None => Error
  }

  /** A line that is one plain ASCII word is its own name. */
  lemma ParsedWord(word: string)
    requires forall i | 0 <= i < |word| :: word[i] as int < 0x80 && IsNameByte(word[i] as int) && !IsWhitespace(word[i])
    ensures ParsedName(word) == Ascii(word)
  {
    calc {
      ParsedName(word);
      KeptBytes(Encode(Trim(Before(word, ' '))));
      { assert IndexOf(word, ' ') == None; }
      KeptBytes(Encode(Trim(word)));
      { TrimNoop(word); }
      KeptBytes(Encode(word));
      { AsciiIsUtf8(word); }
      KeptBytes(Ascii(word));
      { KeptBytesIdentity(Ascii(word)); }
      Ascii(word);
    }
  }

  /** A line that is one plain ASCII word selects the command of that name, if any. */
  lemma DispatchWord(word: string)
    requires forall i | 0 <= i < |word| :: word[i] as int < 0x80 && IsNameByte(word[i] as int) && !IsWhitespace(word[i])
    ensures Dispatched(word) == match Lookup(Ascii(word)) case Some(c) => c case None => Error
  {
    ParsedWord(word);
  }

  /** The lengths and first letters of the names, used to tell a short word from every name. */
  lemma NameShape(c: Command)
    ensures |NameBytes(c)| in {4, 5, 6, 8}
    ensures NameBytes(c)[0] in {0x63, 0x64, 0x65, 0x68, 0x72, 0x73, 0x74}
  {
    match c
    case Hello => {}
    case Time => {}
    case TimeSet => {}
    case Date => {}
    case DateSet => {}
    case Error => {}
    case Reboot => {}
    case Shutdown => {}
    case Clear => {}
  }

  /** Only the exact name is found: `hello` is... */
  lemma HelloFound()
    ensures Lookup(Ascii("hello")) == Some(Hello)
  {
    LookupExact(Ascii("hello"), Hello);
  }

  /** ...and `hell`, a prefix of it, is not. */
  lemma HellNotFound()
    ensures Lookup(Ascii("hell")).None?
  {
    var hell := Ascii("hell");
    assert |hell| == 4 && hell[0] == 0x68;
    forall c: Command ensures NameBytes(c) != hell {
      match c
      case Time => assert NameBytes(c)[0] == 0x74;
      case Date => assert NameBytes(c)[0] == 0x64;
      case _ => NameShape(c);
    }
  }

  /** So the line `hello` runs `hello_action`... */
  lemma HelloSelected()
    ensures Dispatched("hello") == Hello
  {
    DispatchWord("hello");
    HelloFound();
  }

  /** ...while `hell` runs `error_action`. */
  lemma HellRejected()
    ensures Dispatched("hell") == Error
  {
    DispatchWord("hell");
    HellNotFound();
  }

  /** A tab inside the word is filtered out: the line `hel\tlo` runs `hello_action`. */
  lemma TabInName()
    ensures Dispatched("hel\tlo") == Hello
  {
    assert "hel\tlo" == "hel" + ['\t'] + "lo";
    ParsedDropsInterior("hel", '\t', "lo");
    assert "hel" + "lo" == "hello";
    HelloFound();
  }

  /** The line is cut at its first space before trimming, so a leading space leaves no name at all. */
  lemma LeadingSpace(rest: string)
    ensures Dispatched([' '] + rest) == Error
  {
    assert Before([' '] + rest, ' ') == [];

  }

  // ---------------------------------------------------------------------------
  // Replies

  /** `format!("{:02}:{:02}:{:02}", h, m, s)`. */
  function FormatTime(h: u8, m: u8, s: u8): string
  {
    ZeroPadded(h, 2) + ":" + ZeroPadded(m, 2) + ":" + ZeroPadded(s, 2)
  }

  /** `format!("{:02}.{:02}.{:04}", d, m, y)`. */
  function FormatDate(d: u8, m: u8, y: u16): string
  {
    ZeroPadded(d, 2) + "." + ZeroPadded(m, 2) + "." + ZeroPadded(y, 4)
  }

  /** The text of the arguments window: its UTF-8 decoding, or empty if it is not UTF-8, then trimmed. */
  function WindowText(window: seq<u8>): string
  {
    Trim(match Decode(window) case Some(text) => text case None => "")
  }

  /** The three fields `time_set` accepts from its window, if each parses as a `u8`. */
  function TimeSetArgs(window: seq<u8>): Option<(u8, u8, u8)>
  {
    var parts := Split(WindowText(window), ':');
    if |parts| < 3 then None
    else match (ParseU8(parts[0]), ParseU8(parts[1]), ParseU8(parts[2]))
      case (Some(h), Some(m), Some(s)) => Some((h, m, s))
      case _ => None
  }

  /** The three fields `date_set` accepts from its window: a `u8` day and month and a `u16` year. */
  function DateSetArgs(window: seq<u8>): Option<(u8, u8, u16)>
  {
    var parts := Split(WindowText(window), '.');
    if |parts| < 3 then None
    else match (ParseU8(parts[0]), ParseU8(parts[1]), ParseU16(parts[2]))
      case (Some(d), Some(m), Some(y)) => Some((d, m, y))
      case _ => None
  }

  /** The window of the current line that holds the arguments: after the prompt and the name and a space. */
  function TimeWindow(line: seq<u8>): seq<u8>
    requires |line| == COLS
  {
    line[12..20]
  }

  function DateWindow(line: seq<u8>): seq<u8>
    requires |line| == COLS
  {
    line[12..22]
  }

  const HELLO_MSG: seq<u8> := Ascii("HELLO!")
  const TIME_SET_MSG: seq<u8> := Ascii("Time set!")
  const TIME_INVALID_MSG: seq<u8> := Ascii("Invalid time format!")
  const DATE_SET_MSG: seq<u8> := Ascii("Date set!")
  const DATE_INVALID_MSG: seq<u8> := Ascii("Invalid date format!")
  const ERROR_MSG: seq<u8> := Ascii("Error: command")
  const REBOOT_MSG: seq<u8> := Ascii("Rebooting...")
  const SHUTDOWN_MSG: seq<u8> := Ascii("Shutting down...")

  /** A formatted field of at most 255 is at most three digits long. */
  lemma PaddedU8Length(n: u8, width: nat)
    requires 1 <= width <= 3
    ensures |ZeroPadded(n, width)| <= 3
  {
    DecimalLength(n, 3);
  }

  lemma PaddedU16Length(n: u16)
    ensures |ZeroPadded(n, 4)| <= 5
  {
    DecimalLength(n, 5);
  }

  lemma {:induction false} EncodeDigits(s: string)
    requires forall i | 0 <= i < |s| :: IsDigit(s[i]) || s[i] == ':' || s[i] == '.'
    ensures |Encode(s)| == |s|
  {
    EncodeAscii(s);
  }

  /** The reply `time` writes is at most 11 bytes long, and exactly 8 for values below 100. */
  lemma FormatTimeLength(h: u8, m: u8, s: u8)
    ensures |Encode(FormatTime(h, m, s))| == |FormatTime(h, m, s)| <= 11
    ensures h < 100 && m < 100 && s < 100 ==> |FormatTime(h, m, s)| == 8
  {
    PaddedU8Length(h, 2);
    PaddedU8Length(m, 2);
    PaddedU8Length(s, 2);
    if h < 100 { DecimalLength(h, 2); }
    if m < 100 { DecimalLength(m, 2); }
    if s < 100 { DecimalLength(s, 2); }
    EncodeDigits(FormatTime(h, m, s));
  }

  /** The reply `date` writes is at most 13 bytes long, and exactly 10 for a two-digit day and month and a four-digit year. */
  lemma FormatDateLength(d: u8, m: u8, y: u16)
    ensures |Encode(FormatDate(d, m, y))| == |FormatDate(d, m, y)| <= 13
    ensures d < 100 && m < 100 && y < 10000 ==> |FormatDate(d, m, y)| == 10
  {
    PaddedU8Length(d, 2);
    PaddedU8Length(m, 2);
    PaddedU16Length(y);
    if d < 100 { DecimalLength(d, 2); }
    if m < 100 { DecimalLength(m, 2); }
    if y < 10000 { DecimalLength(y, 4); }
    EncodeDigits(FormatDate(d, m, y));
  }

  /** The `{:02}` fields of a `time` reply split back into the fields. */
  lemma SplitTime(h: u8, m: u8, s: u8)
    ensures Split(FormatTime(h, m, s), ':') == [ZeroPadded(h, 2), ZeroPadded(m, 2), ZeroPadded(s, 2)]
  {
    var parts := [ZeroPadded(h, 2), ZeroPadded(m, 2), ZeroPadded(s, 2)];
    assert Join(parts, ':') == FormatTime(h, m, s) by {
      assert parts[1..][1..] == [parts[2]];
      assert Join(parts[1..], ':') == parts[1] + [':'] + parts[2];
    }
    forall i | 0 <= i < 3 ensures ':' !in parts[i] {
      assert forall k | 0 <= k < |parts[i]| :: IsDigit(parts[i][k]);
    }
    SplitOfJoin(parts, ':');
  }

  lemma SplitDate(d: u8, m: u8, y: u16)
    ensures Split(FormatDate(d, m, y), '.') == [ZeroPadded(d, 2), ZeroPadded(m, 2), ZeroPadded(y, 4)]
  {
    var parts := [ZeroPadded(d, 2), ZeroPadded(m, 2), ZeroPadded(y, 4)];
    assert Join(parts, '.') == FormatDate(d, m, y) by {
      assert parts[1..][1..] == [parts[2]];
      assert Join(parts[1..], '.') == parts[1] + ['.'] + parts[2];
    }
    forall i | 0 <= i < 3 ensures '.' !in parts[i] {
      assert forall k | 0 <= k < |parts[i]| :: IsDigit(parts[i][k]);
    }
    SplitOfJoin(parts, '.');
  }

  /** Formatted digits have no whitespace at either end, so decoding and trimming give them back. */
  lemma WindowOfDigits(text: string)
    requires text != [] && IsDigit(text[0]) && IsDigit(text[|text| - 1])
    ensures WindowText(Encode(text)) == text
  {
    Unpadded(text);
  }

  /**
   * What `time` prints, `time_set` reads back: the `HH:MM:SS` bytes of any
   * time below 100:100:100 fill the eight-byte window exactly and parse to the
   * same three values, out-of-range ones such as 99:99:99 included.
   */
  lemma TimeRoundTrip(h: u8, m: u8, s: u8)
    requires h < 100 && m < 100 && s < 100
    ensures |Encode(FormatTime(h, m, s))| == 8
    ensures TimeSetArgs(Encode(FormatTime(h, m, s))) == Some((h, m, s))
  {
    FormatTimeLength(h, m, s);
    var text := FormatTime(h, m, s);
    assert text[0] == ZeroPadded(h, 2)[0];
    assert text[|text| - 1] == ZeroPadded(s, 2)[|ZeroPadded(s, 2)| - 1];
    WindowOfDigits(text);
    SplitTime(h, m, s);
    ParseZeroPadded(h, 2, 0xFF);
    ParseZeroPadded(m, 2, 0xFF);
    ParseZeroPadded(s, 2, 0xFF);
  }

  /** What `date` prints, `date_set` reads back from its ten-byte window. */
  lemma DateRoundTrip(d: u8, m: u8, y: u16)
    requires d < 100 && m < 100 && y < 10000
    ensures |Encode(FormatDate(d, m, y))| == 10
    ensures DateSetArgs(Encode(FormatDate(d, m, y))) == Some((d, m, y))
  {
    FormatDateLength(d, m, y);
    var text := FormatDate(d, m, y);
    assert text[0] == ZeroPadded(d, 2)[0];
    assert text[|text| - 1] == ZeroPadded(y, 4)[|ZeroPadded(y, 4)| - 1];
    WindowOfDigits(text);
    SplitDate(d, m, y);
    ParseZeroPadded(d, 2, 0xFF);
    ParseZeroPadded(m, 2, 0xFF);
    ParseZeroPadded(y, 4, 0xFFFF);
  }

  lemma ShortTimeText()
    ensures WindowText(Ascii("1:2:3") + [0, 0, 0]) == "1:2:3\0\0\0"
  {
    ShortTimeBytes();
    Unpadded("1:2:3\0\0\0");
  }

  /** The bytes of the short line `1:2:3` with three NULs after it, used by ShortTimeRejected. */
  lemma ShortTimeBytes()
    ensures Ascii("1:2:3") + [0, 0, 0] == Encode("1:2:3\0\0\0")
  {
    var text := "1:2:3\0\0\0";
    assert Ascii("1:2:3") + [0, 0, 0] == Ascii(text);
    AsciiIsUtf8(text);
  }

  /** A window holding the encoding of a text with no whitespace at either end holds that text. */
  lemma Unpadded(text: string)
    requires text != [] ==> !IsWhitespace(text[0]) && !IsWhitespace(text[|text| - 1])
    ensures WindowText(Encode(text)) == text
  {
    DecodeEncode(text);
    TrimNoop(text);
  }

  lemma ShortTimeParts()
    ensures Split("1:2:3\0\0\0", ':') == ["1", "2", "3\0\0\0"]
  {
    var parts := ["1", "2", "3\0\0\0"];
    assert Join(parts, ':') == "1:2:3\0\0\0" by {
      assert parts[1..][1..] == [parts[2]];
      assert Join(parts[1..], ':') == parts[1] + [':'] + parts[2];
    }
    SplitOfJoin(parts, ':');
  }

  /**
   * The window is taken whole: `time_set 1:2:3` leaves three NUL bytes in it,
   * which `trim` keeps and which make the last field unparseable.
   */
  lemma ShortTimeRejected()
    ensures TimeSetArgs(Ascii("1:2:3") + [0, 0, 0]).None?
  {
    ShortTimeText();
    ShortTimeParts();
    assert ParseU8("3\0\0\0").None? by {
      assert Accumulate(0, "3\0\0\0", 0xFF) == Accumulate(3, "\0\0\0", 0xFF);
    }
  }

  // ---------------------------------------------------------------------------
  // The actions

  /**
   * How a command ends: it returns the continuation flag `command_fn` passes
   * on (true only for `clear`), or it ends in a reboot or power-off and never returns.
   */
  datatype Outcome = Continue(reset: bool) | Rebooted | PoweredOff

  function OutcomeOf(c: Command): Outcome
  {
    match c
    case Clear => Continue(true)
    case Reboot => Rebooted
    case Shutdown => PoweredOff
    case _ => Continue(false)
  }

  /** Only `reboot` and `shutdown` stop the shell, and of the others only `clear` asks for the cursor to be reset. */
  lemma OutcomeCases(c: Command)
    ensures OutcomeOf(c).Continue? <==> c != Reboot && c != Shutdown
    ensures OutcomeOf(c).Continue? ==> (OutcomeOf(c).reset <==> c == Clear)
  {
  }

  /** Row `row` of the line buffer. */
  function Line(buffer: array2<u8>, row: nat): (line: seq<u8>)
    requires Vga.IsLineBuffer(buffer) && row < ROWS
    reads buffer
    ensures |line| == COLS
  {
    seq(COLS, c reads buffer requires 0 <= c < COLS => buffer[row, c])
  }

  /** The bytes `time_action` writes. */
  function TimeReply(h: u8, m: u8, s: u8): (msg: seq<u8>)
    ensures |msg| <= 11
  {
    FormatTimeLength(h, m, s);
    Encode(FormatTime(h, m, s))
  }

  /** The bytes `date_action` writes. */
  function DateReply(d: u8, m: u8, y: u16): (msg: seq<u8>)
    ensures |msg| <= 13
  {
    FormatDateLength(d, m, y);
    Encode(FormatDate(d, m, y))
  }

  /** The reply a command other than `clear` writes below the current line, in the clock state `now`. */
  function Reply(c: Command, now: Datetime.Moment, line: seq<u8>): (msg: seq<u8>)
    requires |line| == COLS && c != Clear
    ensures |msg| <= 20
  {
    match c
    case Hello => HELLO_MSG
    case Time => TimeReply(now.hours, now.minutes, now.seconds)
    case TimeSet => if TimeSetArgs(TimeWindow(line)).Some? then TIME_SET_MSG else TIME_INVALID_MSG
    case Date => DateReply(now.day, now.month, now.year)
    case DateSet => if DateSetArgs(DateWindow(line)).Some? then DATE_SET_MSG else DATE_INVALID_MSG
    case Error => ERROR_MSG
    case Reboot => REBOOT_MSG
    case Shutdown => SHUTDOWN_MSG
  }

  /** The clock after command `c`: only `time_set` and `date_set` with well-formed arguments change it. */
  function ClockAfter(c: Command, now: Datetime.Moment, line: seq<u8>): Datetime.Moment
    requires |line| == COLS
  {
    match c
    case TimeSet => WithTime(now, TimeSetArgs(TimeWindow(line)))
    case DateSet => WithDate(now, DateSetArgs(DateWindow(line)))
    case _ => now
  }

  predicate Screen(buffer: array2<u8>, fb: array<u8>)
  {
    Vga.IsLineBuffer(buffer) && Vga.SCREEN_BYTES <= fb.Length
  }

  /**
   * `msg` has been written to row `row + 1`: into the first |msg| cells of the
   * line buffer, and onto the screen in attribute 0x07; nothing else changed.
   */
  twostate predicate Wrote(buffer: array2<u8>, fb: array<u8>, row: nat, msg: seq<u8>)
    requires Screen(buffer, fb) && row + 1 < ROWS && |msg| <= COLS
    reads buffer, fb
  {
    && (forall r, c | 0 <= r < ROWS && 0 <= c < COLS ::
         buffer[r, c] == if r == row + 1 && c < |msg| then msg[c] else old(buffer[r, c]))
    && fb[..] == Vga.PutRun(old(fb[..]), row + 1, 0, msg, 0x07)
  }

  /** The loop every action ends with: `write_char(row + 1, i, byte, 0x07)` and `buffer[row + 1][i] = byte`. */
  method WriteMessage(buffer: array2<u8>, fb: array<u8>, row: nat, msg: seq<u8>)
    requires Screen(buffer, fb) && row + 1 < ROWS && |msg| <= COLS
    modifies buffer, fb
    ensures Wrote(buffer, fb, row, msg)
  {
    for i := 0 to |msg|
      invariant fb[..] == Vga.PutRun(old(fb[..]), row + 1, 0, msg[..i], 0x07)
      invariant forall r, c | 0 <= r < ROWS && 0 <= c < COLS ::
        buffer[r, c] == if r == row + 1 && c < i then msg[c] else old(buffer[r, c])
    {
      assert msg[..i + 1][..i] == msg[..i];
      Vga.WriteChar(fb, row + 1, i, msg[i], 0x07);
      buffer[row + 1, i] := msg[i];
    }
    assert msg[..|msg|] == msg;
  }

  method HelloAction(buffer: array2<u8>, fb: array<u8>, row: nat) returns (outcome: Outcome)
    requires Screen(buffer, fb) && row + 1 < ROWS
    modifies buffer, fb
    ensures Wrote(buffer, fb, row, HELLO_MSG) && outcome == Continue(false)
  {
    WriteMessage(buffer, fb, row, HELLO_MSG);
    outcome := Continue(false);
  }

  method TimeAction(buffer: array2<u8>, fb: array<u8>, clock: Datetime.DateTime, row: nat)
    returns (outcome: Outcome)
    requires Screen(buffer, fb) && row + 1 < ROWS
    modifies buffer, fb
    ensures Wrote(buffer, fb, row, TimeReply(clock.hours, clock.minutes, clock.seconds))
    ensures outcome == Continue(false)
  {
    var h, m, s := clock.GetTime();
    WriteMessage(buffer, fb, row, TimeReply(h, m, s));
    outcome := Continue(false);
  }

  method DateAction(buffer: array2<u8>, fb: array<u8>, clock: Datetime.DateTime, row: nat)
    returns (outcome: Outcome)
    requires Screen(buffer, fb) && row + 1 < ROWS
    modifies buffer, fb
    ensures Wrote(buffer, fb, row, DateReply(clock.day, clock.month, clock.year))
    ensures outcome == Continue(false)
  {
    var d, m, y := clock.GetDate();
    WriteMessage(buffer, fb, row, DateReply(d, m, y));
    outcome := Continue(false);
  }

  /** The clock after `time_set` with parsed arguments `args`: unchanged when they did not parse. */
  function WithTime(now: Datetime.Moment, args: Option<(u8, u8, u8)>): (after: Datetime.Moment)
    ensures after.day == now.day && after.month == now.month && after.year == now.year
    ensures args.Some? ==> after.hours == args.value.0 && after.minutes == args.value.1 && after.seconds == args.value.2
    ensures args.None? ==> after == now
  {
    match args
    case Some((h, m, s)) => now.(hours := h, minutes := m, seconds := s)
    case None => now
  }

  /** The clock after `date_set` with parsed arguments `args`: unchanged when they did not parse. */
  function WithDate(now: Datetime.Moment, args: Option<(u8, u8, u16)>): (after: Datetime.Moment)
    ensures after.hours == now.hours && after.minutes == now.minutes && after.seconds == now.seconds
    ensures args.Some? ==> after.day == args.value.0 && after.month == args.value.1 && after.year == args.value.2
    ensures args.None? ==> after == now
  {
    match args
    case Some((d, m, y)) => now.(day := d, month := m, year := y)
    case None => now
  }

  /** The `if let Ok(..)` branch of `time_set_action`: stores the parsed time, if any. */
  method ApplyTime(clock: Datetime.DateTime, args: Option<(u8, u8, u8)>)
    modifies clock
    ensures clock.Value() == WithTime(old(clock.Value()), args)
  {
    if args.Some? {
      clock.SetTime(args.value.0, args.value.1, args.value.2);
    }
  }

  /** The `if let Ok(..)` branch of `date_set_action`: stores the parsed date, if any. */
  method ApplyDate(clock: Datetime.DateTime, args: Option<(u8, u8, u16)>)
    modifies clock
    ensures clock.Value() == WithDate(old(clock.Value()), args)
  {
    if args.Some? {
      clock.SetDate(args.value.0, args.value.1, args.value.2);
    }
  }

  /** `time_set_action`: sets the time from the window `[12..20]` of the current line, if it parses. */
  method TimeSetAction(buffer: array2<u8>, fb: array<u8>, clock: Datetime.DateTime, row: nat)
    returns (outcome: Outcome)
    requires Screen(buffer, fb) && row + 1 < ROWS
    modifies buffer, fb, clock
    ensures clock.Value() == ClockAfter(TimeSet, old(clock.Value()), old(Line(buffer, row)))
    ensures Wrote(buffer, fb, row, Reply(TimeSet, old(clock.Value()), old(Line(buffer, row))))
    ensures outcome == Continue(false)
  {
    var args := TimeSetArgs(TimeWindow(Line(buffer, row)));
    var msg := if args.Some? then TIME_SET_MSG else TIME_INVALID_MSG;
    ApplyTime(clock, args);
    WriteMessage(buffer, fb, row, msg);
    outcome := Continue(false);
  }

  /** `date_set_action`: sets the date from the window `[12..22]` of the current line, if it parses. */
  method DateSetAction(buffer: array2<u8>, fb: array<u8>, clock: Datetime.DateTime, row: nat)
    returns (outcome: Outcome)
    requires Screen(buffer, fb) && row + 1 < ROWS
    modifies buffer, fb, clock
    ensures clock.Value() == ClockAfter(DateSet, old(clock.Value()), old(Line(buffer, row)))
    ensures Wrote(buffer, fb, row, Reply(DateSet, old(clock.Value()), old(Line(buffer, row))))
    ensures outcome == Continue(false)
  {
    var args := DateSetArgs(DateWindow(Line(buffer, row)));
    var msg := if args.Some? then DATE_SET_MSG else DATE_INVALID_MSG;
    ApplyDate(clock, args);
    WriteMessage(buffer, fb, row, msg);
    outcome := Continue(false);
  }

  method ErrorAction(buffer: array2<u8>, fb: array<u8>, row: nat) returns (outcome: Outcome)
    requires Screen(buffer, fb) && row + 1 < ROWS
    modifies buffer, fb
    ensures Wrote(buffer, fb, row, ERROR_MSG) && outcome == Continue(false)
  {
    WriteMessage(buffer, fb, row, ERROR_MSG);
    outcome := Continue(false);
  }

  /** `reboot_action` up to its reset request, after which it does not return. */
  method RebootAction(buffer: array2<u8>, fb: array<u8>, row: nat) returns (outcome: Outcome)
    requires Screen(buffer, fb) && row + 1 < ROWS
    modifies buffer, fb
    ensures Wrote(buffer, fb, row, REBOOT_MSG) && outcome == Rebooted
  {
    WriteMessage(buffer, fb, row, REBOOT_MSG);
    outcome := Rebooted;
  }

  /** `shutdown_action` up to its power-off request, after which it does not return. */
  method ShutdownAction(buffer: array2<u8>, fb: array<u8>, row: nat) returns (outcome: Outcome)
    requires Screen(buffer, fb) && row + 1 < ROWS
    modifies buffer, fb
    ensures Wrote(buffer, fb, row, SHUTDOWN_MSG) && outcome == PoweredOff
  {
    WriteMessage(buffer, fb, row, SHUTDOWN_MSG);
    outcome := PoweredOff;
  }

  /** `clear`: blanks the 80x25 screen and the whole line buffer and puts the cursor at (0, 0). */
  method ClearAction(buffer: array2<u8>, fb: array<u8>, cursor: Cursor) returns (outcome: Outcome)
    requires Screen(buffer, fb)
    modifies buffer, fb, cursor
    ensures forall r, c | 0 <= r < ROWS && 0 <= c < COLS :: buffer[r, c] == 0
    ensures fb[..] == Vga.Cleared(old(fb[..]), Vga.SCREEN_BYTES)
    ensures cursor.row == 0 && cursor.col == 0
    ensures outcome == Continue(true)
  {
    Vga.ClearScreen(fb, 80, 25);
    for r := 0 to ROWS
      invariant forall r', c | 0 <= r' < r && 0 <= c < COLS :: buffer[r', c] == 0
      invariant fb[..] == Vga.Cleared(old(fb[..]), Vga.SCREEN_BYTES)
    {
      for c := 0 to COLS
        invariant forall r', c' | 0 <= r' < r && 0 <= c' < COLS :: buffer[r', c'] == 0
        invariant forall c' | 0 <= c' < c :: buffer[r, c'] == 0
        invariant fb[..] == Vga.Cleared(old(fb[..]), Vga.SCREEN_BYTES)
      {
        buffer[r, c] := 0;
      }
    }
    cursor.col := 0;
    cursor.row := 0;
    outcome := Continue(true);
  }

  /** The action the table pairs with `c`. */
  method RunAction(c: Command, buffer: array2<u8>, fb: array<u8>, clock: Datetime.DateTime, cursor: Cursor,
                   row: nat) returns (outcome: Outcome)
    requires Screen(buffer, fb)
    requires row + 1 < ROWS || c == Clear
    modifies buffer, fb, clock, cursor
    ensures outcome == OutcomeOf(c)
    ensures c == Clear ==>
      && (forall r, c | 0 <= r < ROWS && 0 <= c < COLS :: buffer[r, c] == 0)
      && fb[..] == Vga.Cleared(old(fb[..]), Vga.SCREEN_BYTES)
      && cursor.row == 0 && cursor.col == 0
      && clock.Value() == old(clock.Value())
    ensures c != Clear ==>
      && row + 1 < ROWS
      && Wrote(buffer, fb, row, Reply(c, old(clock.Value()), old(Line(buffer, row))))
      && clock.Value() == ClockAfter(c, old(clock.Value()), old(Line(buffer, row)))
      && cursor.row == old(cursor.row) && cursor.col == old(cursor.col)
  {
    match c {
      case Hello => outcome := HelloAction(buffer, fb, row);
      case Time => outcome := TimeAction(buffer, fb, clock, row);
      case TimeSet => outcome := TimeSetAction(buffer, fb, clock, row);
      case Date => outcome := DateAction(buffer, fb, clock, row);
      case DateSet => outcome := DateSetAction(buffer, fb, clock, row);
      case Error => outcome := ErrorAction(buffer, fb, row);
      case Reboot => outcome := RebootAction(buffer, fb, row);
      case Shutdown => outcome := ShutdownAction(buffer, fb, row);
      case Clear => outcome := ClearAction(buffer, fb, cursor);
    }
  }

  /**
   * `command_fn`: cuts the line down to a name, runs the action the table
   * gives for it (`error_action` when there is none) and passes its flag on.
   */
  method CommandFn(buffer: array2<u8>, fb: array<u8>, clock: Datetime.DateTime, cursor: Cursor,
                   row: nat, command: string) returns (outcome: Outcome)
    requires Screen(buffer, fb)
    requires row + 1 < ROWS || Dispatched(command) == Clear
    modifies buffer, fb, clock, cursor
    ensures outcome == OutcomeOf(Dispatched(command))
    ensures Dispatched(command) == Clear ==>
      && (forall r, c | 0 <= r < ROWS && 0 <= c < COLS :: buffer[r, c] == 0)
      && fb[..] == Vga.Cleared(old(fb[..]), Vga.SCREEN_BYTES)
      && cursor.row == 0 && cursor.col == 0
      && clock.Value() == old(clock.Value())
    ensures Dispatched(command) != Clear ==>
      && row + 1 < ROWS
      && Wrote(buffer, fb, row, Reply(Dispatched(command), old(clock.Value()), old(Line(buffer, row))))
      && clock.Value() == ClockAfter(Dispatched(command), old(clock.Value()), old(Line(buffer, row)))
      && cursor.row == old(cursor.row) && cursor.col == old(cursor.col)
  {
    var name := match IndexOf(command, ' ') case Some(pos) => command[..pos] case None => command;
    var trimmed := Trim(name);
    var filtered := FilterName(Encode(trimmed));
    var found := FindCommand(TABLE, filtered);
    assert filtered == ParsedName(command);
    match found {
      case Some(c) => outcome := RunAction(c, buffer, fb, clock, cursor, row);
      case None => outcome := RunAction(Error, buffer, fb, clock, cursor, row);
    }
  }
}
