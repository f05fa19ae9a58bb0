/**
 The text format of a download queue file: one line `size:path` for each item
 (src/outgoing_downloader.rs, initialize_download_queue and write_queue_file).
 */
module QueueFile {
  import opened Common

  datatype DownloadQueueItem = DownloadQueueItem(path: string, fileSize: u64)

  const U64_MAX: u64 := 0xFFFF_FFFF_FFFF_FFFF

  // ---------------------------------------------------------------- numbers

  predicate IsDigit(c: char) {
    '0' <= c <= '9'
  }

  function DigitChar(d: nat): (c: char)
    requires d < 10
    ensures IsDigit(c) && c as int - '0' as int == d
  {
    '0' + d as char
  }

  /** A number in decimal, as `format!` prints it. */
  function PrintNat(n: nat): (s: string)
    ensures s != ""
    ensures forall i :: 0 <= i < |s| ==> IsDigit(s[i])
  {
    if n < 10 then [DigitChar(n)] else PrintNat(n / 10) + [DigitChar(n % 10)]
  }

  function DigitsValue(s: string): nat
    requires forall i :: 0 <= i < |s| ==> IsDigit(s[i])
  {
    if s == "" then 0
    else
      assert IsDigit(s[|s| - 1]);
      DigitsValue(s[..|s| - 1]) * 10 + (s[|s| - 1] as int - '0' as int)
  }

  predicate AllDigits(s: string) {
    forall i :: 0 <= i < |s| ==> IsDigit(s[i])
  }

  /** `parse::<u64>`: digits after at most one plus sign, with a value that fits. */
  function ParseU64(s: string): Option<u64> {
    var digits := if s != "" && s[0] == '+' then s[1..] else s;
    if digits == "" || !AllDigits(digits) then None
    else if DigitsValue(digits) > U64_MAX then None
    else Some(DigitsValue(digits))
  }

  lemma {:induction false} PrintNatValue(n: nat)
    ensures DigitsValue(PrintNat(n)) == n
  {
    if n < 10 {
      assert PrintNat(n)[..0] == "";
    } else {
      PrintNatValue(n / 10);
      assert PrintNat(n)[..|PrintNat(n)| - 1] == PrintNat(n / 10);
    }
  }

  lemma ParsePrintU64(n: u64)
    ensures ParseU64(PrintNat(n)) == Some(n)
  {
    PrintNatValue(n);
    assert IsDigit(PrintNat(n)[0]);
  }

  // ---------------------------------------------------------------- text

  /** The Unicode White_Space characters, which `trim` removes. */
  predicate IsWhitespace(c: char) {
    var n := c as int;
    || 0x09 <= n <= 0x0D || n == 0x20 || n == 0x85 || n == 0xA0 || n == 0x1680
    || 0x2000 <= n <= 0x200A || n == 0x2028 || n == 0x2029 || n == 0x202F || n == 0x205F || n == 0x3000
  }

  function TrimStart(s: string): (r: string)
    ensures r == "" || !IsWhitespace(r[0])
  {
    if s != "" && IsWhitespace(s[0]) then TrimStart(s[1..]) else s
  }

  function TrimEnd(s: string): (r: string)
    ensures r <= s
    ensures r == "" || !IsWhitespace(r[|r| - 1])
  {
    if s != "" && IsWhitespace(s[|s| - 1]) then TrimEnd(s[..|s| - 1]) else s
  }

  function Trim(s: string): string {
    TrimEnd(TrimStart(s))
  }

  /** The position of the first c, or the length of the string. */
  function IndexOf(s: string, c: char): (i: nat)
    ensures i <= |s|
    ensures forall j :: 0 <= j < i ==> s[j] != c
    ensures i < |s| ==> s[i] == c
  {
    if s == "" || s[0] == c then 0 else 1 + IndexOf(s[1..], c)
  }

  /**
   `lines`: the pieces between newlines, without an empty one at the end. The carriage return that
   `lines` also drops is whitespace, which is trimmed from every line anyway.
   */
  function Lines(s: string): seq<string>
    decreases |s|
  {
    if s == "" then []
    else
      var i := IndexOf(s, '\n');
      if i == |s| then [s] else [s[..i]] + Lines(s[i + 1..])
  }

  /** `split(':')`. */
  function Split(s: string): (r: seq<string>)
    ensures r != []
    decreases |s|
  {
    var i := IndexOf(s, ':');
    if i == |s| then [s] else [s[..i]] + Split(s[i + 1..])
  }

  /** `join(":")`. */
  function Join(parts: seq<string>): string {
    if parts == [] then ""
    else if |parts| == 1 then parts[0]
    else parts[0] + ":" + Join(parts[1..])
  }

  lemma {:induction false} JoinSplit(s: string)
    ensures Join(Split(s)) == s
    decreases |s|
  {
    var i := IndexOf(s, ':');
    if i < |s| {
      JoinSplit(s[i + 1..]);
      assert Split(s)[1..] == Split(s[i + 1..]);
      assert s == s[..i] + ":" + s[i + 1..];
    }
  }

  // ---------------------------------------------------------------- the queue file

  datatype QueueError = InvalidLine(line: string) | InvalidFileSize(line: string)

  /** One line of the file; blank lines hold no item. */
  function ParseLine(raw: string): Result<seq<DownloadQueueItem>, QueueError> {
    var line := Trim(raw);
    if line == "" then Ok([])
    else
      var parts := Split(line);
      if |parts| < 2 then Err(InvalidLine(line))
      else
        match ParseU64(parts[0])
        case None => Err(InvalidFileSize(line))
        case Some(size) => Ok([DownloadQueueItem(Join(parts[1..]), size)])
  }

  function ParseLines(lines: seq<string>): Result<seq<DownloadQueueItem>, QueueError> {
    if lines == [] then Ok([])
    else
      match ParseLines(lines[..|lines| - 1])
      case Err(e) => Err(e)
      case Ok(q) =>
        match ParseLine(lines[|lines| - 1])
        case Err(e) => Err(e)
        case Ok(more) => Ok(q + more)
  }

  function ParseQueue(text: string): Result<seq<DownloadQueueItem>, QueueError> {
    ParseLines(Lines(text))
  }

  function PrintItem(item: DownloadQueueItem): string {
    PrintNat(item.fileSize) + ":" + item.path + "\n"
  }

  function PrintQueue(q: seq<DownloadQueueItem>): string {
    if q == [] then "" else PrintQueue(q[..|q| - 1]) + PrintItem(q[|q| - 1])
  }

  predicate Digits(s: string, n: nat) {
    s != "" && AllDigits(s) && DigitsValue(s) == n
  }

  /** An optional plus sign and digits that denote this number. */
  predicate Denotes(s: string, n: nat) {
    Digits(if s != "" && s[0] == '+' then s[1..] else s, n)
  }

  /**
   The line of an item, as it is read: trimmed, it is a number that fits 64 bits, a colon, and the
   path, which may contain more colons. As it is written, the number has no sign.
   */
  lemma LineMeans(raw: string, item: DownloadQueueItem)
    ensures ParseLine(raw) == Ok([item])
      <==> exists k :: 0 <= k < |Trim(raw)| && Trim(raw) == Trim(raw)[..k] + ":" + item.path
                       && Denotes(Trim(raw)[..k], item.fileSize)
    ensures var s := PrintItem(item);
      exists k :: 0 < k < |s| && s == s[..k] + ":" + item.path + "\n" && s[0] != '+' && Denotes(s[..k], item.fileSize)
  {
    hide Trim, DigitsValue, Split, Join, PrintNat;
    var line := Trim(raw);
    if ParseLine(raw) == Ok([item]) {
      var parts := Split(line);
      SplitAtColon(line);
      var k := |parts[0]|;
      assert line == line[..k] + ":" + item.path;
      ParsesNumber(parts[0], item.fileSize);
    }
    if k :| 0 <= k < |line| && line == line[..k] + ":" + item.path && Denotes(line[..k], item.fileSize) {
      NumberHasNoColon(line[..k], item.fileSize);
      SplitAtNumber(line, k);
      ParsesNumber(line[..k], item.fileSize);
      assert line[k + 1..] == item.path;
    }
    var s, number := PrintItem(item), PrintNat(item.fileSize);
    PrintNatValue(item.fileSize);
    assert s[..|number|] == number;
    assert IsDigit(number[0]);
  }

  lemma ParsesNumber(s: string, n: u64)
    ensures ParseU64(s) == Some(n) <==> Denotes(s, n)
  {
    hide AllDigits;
  }

  lemma SplitAtColon(line: string)
    requires |Split(line)| >= 2
    ensures var k := |Split(line)[0]|;
      k < |line| && line == Split(line)[0] + ":" + Join(Split(line)[1..]) && line[..k] == Split(line)[0]
  {
    var i := IndexOf(line, ':');
    assert Split(line)[1..] == Split(line[i + 1..]);
    JoinSplit(line[i + 1..]);
  }

  lemma NumberHasNoColon(s: string, n: nat)
    requires Denotes(s, n)
    ensures ':' !in s
  {
    forall i | 0 <= i < |s|
      ensures s[i] != ':'
    {
      var digits := if s[0] == '+' then s[1..] else s;
      if s[0] == '+' && i > 0 {
        assert IsDigit(digits[i - 1]);
      } else if s[0] != '+' {
        assert IsDigit(digits[i]);
      }
    }
  }

  lemma SplitAtNumber(line: string, k: nat)
    requires k < |line| && line[k] == ':' && ':' !in line[..k]
    ensures |Split(line)| >= 2 && Split(line)[0] == line[..k] && Join(Split(line)[1..]) == line[k + 1..]
  {
    var i := IndexOf(line, ':');
    assert forall j :: 0 <= j < k ==> line[..k][j] == line[j];
    assert i == k;
    assert Split(line)[1..] == Split(line[k + 1..]);
    JoinSplit(line[k + 1..]);
  }

  /** Paths that survive in a line of their own. */
  predicate PathOk(path: string) {
    '\n' !in path && (path == "" || !IsWhitespace(path[|path| - 1]))
  }

  predicate PathsOk(q: seq<DownloadQueueItem>) {
    forall i :: 0 <= i < |q| ==> PathOk(q[i].path)
  }

  /** Where a file may be extended by further lines. */
  predicate EndsLine(text: string) {
    text == "" || text[|text| - 1] == '\n'
  }

  lemma {:induction false} LinesAppend(a: string, b: string)
    requires EndsLine(a)
    ensures Lines(a + b) == Lines(a) + Lines(b)
    decreases |a|
  {
    if a == "" {
      assert a + b == b;
    } else {
      var i := IndexOf(a, '\n');
      assert a[|a| - 1] == '\n';
      IndexOfAppend(a, b, '\n');
      assert (a + b)[..i] == a[..i];
      assert (a + b)[i + 1..] == a[i + 1..] + b;
      LinesAppend(a[i + 1..], b);
    }
  }

  lemma {:induction false} IndexOfAppend(a: string, b: string, c: char)
    requires c in a
    ensures IndexOf(a + b, c) == IndexOf(a, c) < |a|
  {
    if a[0] == c {
    } else {
      assert (a + b)[1..] == a[1..] + b;
      IndexOfAppend(a[1..], b, c);
    }
  }

  lemma {:induction false} ParseLinesAppend(a: seq<string>, b: seq<string>)
    requires ParseLines(a).Ok?
    ensures ParseLines(a + b) ==
      match ParseLines(b)
      case Err(e) => Err(e)
      case Ok(q) => Ok(ParseLines(a).value + q)
  {
    hide ParseLine;
    if b == [] {
      assert a + b == a;
      assert ParseLines(a).value + [] == ParseLines(a).value;
    } else {
      ParseLinesAppend(a, b[..|b| - 1]);
      assert (a + b)[..|a + b| - 1] == a + b[..|b| - 1];
      if ParseLines(b).Ok? {
        var x, y, z := ParseLines(a).value, ParseLines(b[..|b| - 1]).value, ParseLine(b[|b| - 1]).value;
        assert x + (y + z) == (x + y) + z;
      }
    }
  }

  lemma FirstIndex(s: string, c: char, i: nat)
    requires i < |s| && s[i] == c
    requires forall j :: 0 <= j < i ==> s[j] != c
    ensures IndexOf(s, c) == i
  {
  }

  lemma TrimNothing(s: string)
    requires s != "" && !IsWhitespace(s[0]) && !IsWhitespace(s[|s| - 1])
    ensures Trim(s) == s
  {
    assert TrimStart(s) == s;
  }

  lemma SplitAtFirst(first: string, rest: string)
    requires ':' !in first
    ensures Split(first + ":" + rest) == [first] + Split(rest)
  {
    var line := first + ":" + rest;
    FirstIndex(line, ':', |first|);
    assert line[..|first|] == first && line[|first| + 1..] == rest;
  }

  /** A line that was printed parses to its item: the path may contain any number of colons. */
  lemma ParsePrintedLine(item: DownloadQueueItem)
    requires PathOk(item.path)
    ensures ParseLine(PrintNat(item.fileSize) + ":" + item.path) == Ok([item])
  {
    hide PrintNat, Trim, Split, Join, ParseU64;
    var digits := PrintNat(item.fileSize);
    var line := digits + ":" + item.path;
    assert IsDigit(line[0]);
    assert line[|line| - 1] == if item.path == "" then ':' else item.path[|item.path| - 1];
    TrimNothing(line);
    assert forall i :: 0 <= i < |digits| ==> IsDigit(digits[i]) && digits[i] != ':';
    SplitAtFirst(digits, item.path);
    JoinSplit(item.path);
    assert Split(line)[1..] == Split(item.path);
    ParsePrintU64(item.fileSize);
  }

  lemma PrintedItemIsOneLine(item: DownloadQueueItem)
    requires PathOk(item.path)
    ensures Lines(PrintItem(item)) == [PrintNat(item.fileSize) + ":" + item.path]
  {
    var line := PrintNat(item.fileSize) + ":" + item.path;
    assert PrintItem(item) == line + "\n";
    forall i | 0 <= i < |line|
      ensures line[i] != '\n'
    {
      if i < |PrintNat(item.fileSize)| {
        assert line[i] == PrintNat(item.fileSize)[i];
      } else if i > |PrintNat(item.fileSize)| {
        assert line[i] == item.path[i - |PrintNat(item.fileSize)| - 1];
      }
    }
    FirstIndex(PrintItem(item), '\n', |line|);
    assert PrintItem(item)[..|line|] == line && PrintItem(item)[|line| + 1..] == "";
  }

  /** Appending one printed item to a file adds exactly that item at the back. */
  lemma AppendItem(text: string, item: DownloadQueueItem)
    requires EndsLine(text) && ParseQueue(text).Ok? && PathOk(item.path)
    ensures ParseQueue(text + PrintItem(item)) == Ok(ParseQueue(text).value + [item])
    ensures EndsLine(text + PrintItem(item))
  {
    hide ParseLine, PrintNat, Lines;
    LinesAppend(text, PrintItem(item));
    PrintedItemIsOneLine(item);
    ParsePrintedLine(item);
    var line := PrintNat(item.fileSize) + ":" + item.path;
    OneLine(line, [item]);
    ParseLinesAppend(Lines(text), [line]);
  }

  lemma OneLine(line: string, q: seq<DownloadQueueItem>)
    requires ParseLine(line) == Ok(q)
    ensures ParseLines([line]) == Ok(q)
  {
    hide ParseLine;
    assert [line][..0] == [] && [] + q == q;
    assert ParseLines([]) == Ok([]);
  }

  lemma {:induction false} PrintedQueueParses(q: seq<DownloadQueueItem>)
    requires PathsOk(q)
    ensures ParseQueue(PrintQueue(q)) == Ok(q)
    ensures EndsLine(PrintQueue(q))
  {
    hide ParseQueue, PrintItem, PathOk;
    if q == [] {
      EmptyFile();
    } else {
      PrintedQueueParses(q[..|q| - 1]);
      AppendItem(PrintQueue(q[..|q| - 1]), q[|q| - 1]);
      assert q == q[..|q| - 1] + [q[|q| - 1]];
    }
  }

  lemma EmptyFile()
    ensures ParseQueue("") == Ok([])
  {
  }

  // ---------------------------------------------------------------- and only such paths

  lemma JoinedTail(line: string)
    requires |Split(line)| >= 2
    ensures Join(Split(line)[1..]) == line[IndexOf(line, ':') + 1..]
    ensures IndexOf(line, ':') < |line|
  {
    hide Split, Join, IndexOf;
    var i := IndexOf(line, ':');
    SplitIs(line);
    JoinSplit(line[i + 1..]);
    assert Split(line)[1..] == Split(line[i + 1..]);
  }

  lemma {:induction false} SplitIs(s: string)
    ensures var i := IndexOf(s, ':');
      Split(s) == if i == |s| then [s] else [s[..i]] + Split(s[i + 1..])
  {
    hide IndexOf;
  }

  lemma {:induction false} TrimStartIsSuffix(s: string)
    ensures |TrimStart(s)| <= |s| && TrimStart(s) == s[|s| - |TrimStart(s)|..]
  {
    if s != "" && IsWhitespace(s[0]) {
      TrimStartIsSuffix(s[1..]);
    }
  }

  lemma ParsedPathOk(raw: string)
    requires '\n' !in raw && ParseLine(raw).Ok? && ParseLine(raw).value != []
    ensures PathOk(ParseLine(raw).value[0].path) && |ParseLine(raw).value| == 1
  {
    hide ParseU64, TrimStart, TrimEnd, IsWhitespace, Split, Join;
    var line := Trim(raw);
    TrimStartIsSuffix(raw);
    assert line <= TrimStart(raw);
    JoinedTail(line);
    var path := line[IndexOf(line, ':') + 1..];
    forall i | 0 <= i < |path|
      ensures path[i] != '\n'
    {
      assert path[i] in raw;
    }
    assert path == "" || path[|path| - 1] == line[|line| - 1];
  }

  lemma {:induction false} LinesHaveNoNewline(s: string)
    ensures forall i :: 0 <= i < |Lines(s)| ==> '\n' !in Lines(s)[i]
    decreases |s|
  {
    if s == "" {
    } else {
      var i := IndexOf(s, '\n');
      if i < |s| {
        LinesHaveNoNewline(s[i + 1..]);
      }
    }
  }

  lemma {:induction false} ParsedLinesOk(lines: seq<string>)
    requires forall i :: 0 <= i < |lines| ==> '\n' !in lines[i]
    requires ParseLines(lines).Ok?
    ensures PathsOk(ParseLines(lines).value)
  {
    hide ParseLine, PathOk;
    if lines == [] {
    } else {
      ParsedLinesOk(lines[..|lines| - 1]);
      var more := ParseLine(lines[|lines| - 1]).value;
      if more != [] {
        ParsedPathOk(lines[|lines| - 1]);
      }
    }
  }

  /**
   Queue persistence, exactly: a queue survives being written and read again if and only if none
   of its paths contains a newline or ends in whitespace.
   */
  lemma QueueRoundTrip(q: seq<DownloadQueueItem>)
    ensures ParseQueue(PrintQueue(q)) == Ok(q) <==> PathsOk(q)
  {
    if PathsOk(q) {
      PrintedQueueParses(q);
    }
    if ParseQueue(PrintQueue(q)) == Ok(q) {
      LinesHaveNoNewline(PrintQueue(q));
      ParsedLinesOk(Lines(PrintQueue(q)));
    }
  }
}
