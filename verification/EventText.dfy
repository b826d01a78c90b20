/** The text of an event stream: blank-line boundaries, lines, fields. */
module EventText {
  import opened Common

  /** The position of the leftmost blank line, or -1. */
  function IndexOf(s: string): (at: int)
    ensures -1 <= at
    ensures at >= 0 ==> at + 1 < |s| && s[at] == s[at + 1] == '\n'
    ensures forall i :: 0 <= i < |s| - 1 && (at == -1 || i < at) ==> !(s[i] == s[i + 1] == '\n')
  {
    if |s| < 2 then -1
    else if s[0] == s[1] == '\n' then 0
    else
      var at := IndexOf(s[1..]);
      assert forall i :: 0 < i < |s| - 1 ==> s[i] == s[1..][i - 1] && s[i + 1] == s[1..][i];
      if at < 0 then -1 else at + 1
  }

  datatype Cut = Cut(events: seq<string>, rest: string)

  /** The one-shot reading: everything before each leftmost blank line is an event. */
  function Split(s: string): Cut
    decreases |s|
  {
    var at := IndexOf(s);
    if at < 0 then Cut([], s)
    else
      var tail := Split(s[at + 2..]);
      Cut([s[..at]] + tail.events, tail.rest)
  }

  /** Text that arrives later does not disturb the events already complete. */
  lemma {:induction false} SplitIncrementally(a: string, b: string)
    ensures Split(a + b).events == Split(a).events + Split(Split(a).rest + b).events
    ensures Split(a + b).rest == Split(Split(a).rest + b).rest
    decreases |a|
  {
    var at := IndexOf(a);
    if at >= 0 {
      var event, tail := a[..at], a[at + 2..];
      BoundaryKept(a, b);
      assert (a + b)[at + 2..] == tail + b && (a + b)[..at] == event;
      SplitIncrementally(tail, b);
      Regroup(event, Split(tail).events, Split(Split(tail).rest + b).events);
    }
  }

  lemma Regroup(x: string, a: seq<string>, b: seq<string>)
    ensures [x] + (a + b) == ([x] + a) + b
  {
  }

  lemma BoundaryKept(a: string, b: string)
    requires IndexOf(a) >= 0
    ensures IndexOf(a + b) == IndexOf(a)
  {
    var at, all := IndexOf(a), a + b;
    assert all[at] == all[at + 1] == '\n';
    assert forall i :: 0 <= i < |a| ==> all[i] == a[i];
  }

  // ---- Lines ----

  const NEWLINE := "\n"

  function Lines(s: string): (lines: seq<string>)
    ensures lines != []
  {
    if s == [] then [""]
    else
      var rest := Lines(s[1..]);
      if s[0] == '\n' then [""] + rest
      else [[s[0]] + rest[0]] + rest[1..]
  }

  function Join(lines: seq<string>): string
    requires lines != []
  {
    if |lines| == 1 then lines[0] else lines[0] + "\n" + Join(lines[1..])
  }

  predicate OneLine(s: string) {
    '\n' !in s
  }

  lemma {:induction false} LinesAreLines(s: string)
    ensures forall line <- Lines(s) :: OneLine(line)
    ensures Join(Lines(s)) == s
  {
    if s != [] {
      LinesAreLines(s[1..]);
      var rest := Lines(s[1..]);
      if s[0] == '\n' {
        assert Lines(s)[1..] == rest;
      } else {
        var first := [s[0]] + rest[0];
        assert rest[0] in rest;
        assert Lines(s) == [first] + rest[1..];
        if |rest| > 1 {
          assert Lines(s)[1..] == rest[1..];
          assert first + "\n" + Join(rest[1..]) == [s[0]] + (rest[0] + "\n" + Join(rest[1..]));
        }
      }
    }
  }

  lemma {:induction false} LinesOfOne(line: string)
    requires OneLine(line)
    ensures Lines(line) == [line]
  {
    if line != [] {
      LinesOfOne(line[1..]);
      assert line == [line[0]] + line[1..];
    }
  }

  lemma {:induction false} LinesOfMore(line: string, more: string)
    requires OneLine(line)
    ensures Lines(line + "\n" + more) == [line] + Lines(more)
  {
    var all := line + "\n" + more;
    if line == [] {
      assert all[1..] == more;
    } else {
      LinesOfMore(line[1..], more);
      assert all[1..] == line[1..] + "\n" + more;
      assert line == [line[0]] + line[1..];
    }
  }

  lemma {:induction false} LinesOfJoin(lines: seq<string>)
    requires lines != [] && forall line <- lines :: OneLine(line)
    ensures Lines(Join(lines)) == lines
  {
    if |lines| == 1 {
      LinesOfOne(lines[0]);
    } else {
      LinesOfJoin(lines[1..]);
      LinesOfMore(lines[0], Join(lines[1..]));
    }
  }

  /** Text without a blank line inside or a newline at either end. */
  predicate Tight(s: string) {
    && s != []
    && s[0] != '\n' && s[|s| - 1] != '\n'
    && forall i :: 0 <= i < |s| - 1 ==> !(s[i] == s[i + 1] == '\n')
  }

  lemma {:induction false} JoinIsTight(lines: seq<string>)
    requires lines != [] && forall line <- lines :: OneLine(line) && line != []
    ensures Tight(Join(lines))
  {
    assert lines[0] in lines;
    assert forall i :: 0 <= i < |lines[0]| ==> lines[0][i] in lines[0];
    if |lines| > 1 {
      JoinIsTight(lines[1..]);
      TightSum(lines[0], Join(lines[1..]));
    }
  }

  lemma TightSum(a: string, b: string)
    requires Tight(a) && Tight(b)
    ensures Tight(a + "\n" + b)
  {
  }

  lemma TightEndsAtBlankLine(s: string, more: string)
    requires Tight(s)
    ensures IndexOf(s + "\n\n" + more) == |s|
  {
    var all := s + "\n\n" + more;
    assert all[|s|] == all[|s| + 1] == '\n';
    forall i | 0 <= i < |s| ensures !(all[i] == all[i + 1] == '\n') {
      assert all[i] == s[i];
      assert i + 1 < |s| ==> all[i + 1] == s[i + 1];
    }
  }

  // ---- Fields ----

  /** White space as the browser's `trim` sees it. */
  predicate IsSpace(c: char) {
    var n := c as int;
    || 9 <= n <= 13 || n == 0x20 || n == 0xA0 || n == 0x1680 || 0x2000 <= n <= 0x200A
    || n == 0x2028 || n == 0x2029 || n == 0x202F || n == 0x205F || n == 0x3000 || n == 0xFEFF
  }

  function TrimStart(s: string): string {
    if s != [] && IsSpace(s[0]) then TrimStart(s[1..]) else s
  }

  function TrimEnd(s: string): string {
    if s != [] && IsSpace(s[|s| - 1]) then TrimEnd(s[..|s| - 1]) else s
  }

  function Trim(s: string): string {
    TrimEnd(TrimStart(s))
  }

  lemma {:induction false} TrimStartShortens(s: string)
    ensures TrimStart(s) == s || |TrimStart(s)| < |s|
    ensures TrimStart(s) == s <==> s == [] || !IsSpace(s[0])
  {
    if s != [] && IsSpace(s[0]) {
      TrimStartShortens(s[1..]);
    }
  }

  lemma {:induction false} TrimEndShortens(s: string)
    ensures TrimEnd(s) == s || |TrimEnd(s)| < |s|
    ensures TrimEnd(s) == s <==> s == [] || !IsSpace(s[|s| - 1])
  {
    if s != [] && IsSpace(s[|s| - 1]) {
      TrimEndShortens(s[..|s| - 1]);
    }
  }

  /** Trimming keeps a text exactly when no white space begins or ends it. */
  lemma TrimKeepsIff(s: string)
    ensures Trim(s) == s <==> s == [] || (!IsSpace(s[0]) && !IsSpace(s[|s| - 1]))
  {
    TrimStartShortens(s);
    TrimEndShortens(TrimStart(s));
  }

  predicate AllSpace(s: string) {
    forall c <- s :: IsSpace(c)
  }

  /** `core` is the text less the white space at its ends. */
  ghost predicate IsCore(s: string, core: string) {
    && (exists before, after :: AllSpace(before) && AllSpace(after) && s == before + core + after)
    && (core != [] ==> !IsSpace(core[0]) && !IsSpace(core[|core| - 1]))
  }

  lemma {:induction false} TrimStartIsCore(s: string)
    ensures exists before :: AllSpace(before) && s == before + TrimStart(s)
    ensures TrimStart(s) != [] ==> !IsSpace(TrimStart(s)[0])
  {
    if s != [] && IsSpace(s[0]) {
      TrimStartIsCore(s[1..]);
      var before :| AllSpace(before) && s[1..] == before + TrimStart(s[1..]);
      assert s == [s[0]] + s[1..] == ([s[0]] + before) + TrimStart(s);
      assert AllSpace([s[0]] + before);
    } else {
      assert AllSpace([]) && s == [] + TrimStart(s);
    }
  }

  lemma {:induction false} TrimEndIsCore(s: string)
    ensures exists after :: AllSpace(after) && s == TrimEnd(s) + after
    ensures TrimEnd(s) != [] ==> TrimEnd(s)[0] == s[0] && !IsSpace(TrimEnd(s)[|TrimEnd(s)| - 1])
  {
    var n := |s| - 1;
    if s != [] && IsSpace(s[n]) {
      TrimEndIsCore(s[..n]);
      var after :| AllSpace(after) && s[..n] == TrimEnd(s[..n]) + after;
      assert s == s[..n] + [s[n]] == TrimEnd(s) + (after + [s[n]]);
      assert AllSpace(after + [s[n]]);
    } else {
      assert AllSpace([]) && s == TrimEnd(s) + [];
    }
  }

  /** Trimming takes away exactly the white space at the two ends. */
  lemma TrimIsCore(s: string)
    ensures IsCore(s, Trim(s))
  {
    TrimStartIsCore(s);
    TrimEndIsCore(TrimStart(s));
    var before :| AllSpace(before) && s == before + TrimStart(s);
    var after :| AllSpace(after) && TrimStart(s) == Trim(s) + after;
    assert s == before + Trim(s) + after;
  }

  const EVENT := "event:"
  const DATA := "data:"
  const NOTIFICATION := "notification"
  const MESSAGE := "message"

  /** The event name after some lines: that of the last `event:` line. */
  function EventName(lines: seq<string>): string {
    if lines == [] then MESSAGE
    else
      var last := lines[|lines| - 1];
      if EVENT <= last then Trim(last[|EVENT|..]) else EventName(lines[..|lines| - 1])
  }

  function DataLines(lines: seq<string>): seq<string> {
    if lines == [] then []
    else
      var last := lines[|lines| - 1];
      DataLines(lines[..|lines| - 1]) + (if !(EVENT <= last) && DATA <= last then [Trim(last[|DATA|..])] else [])
  }

  /** The name of an event is that of its last `event:` line, or `message`; other lines do not
      matter to it. */
  lemma {:induction false} NameIsTheLast(lines: seq<string>, k: int)
    requires -1 <= k < |lines|
    requires forall j :: k < j < |lines| ==> !(EVENT <= lines[j])
    requires k >= 0 ==> EVENT <= lines[k]
    ensures EventName(lines) == if k < 0 then "message" else Trim(lines[k][6..])
    decreases |lines|
  {
    var n := |lines| - 1;
    if k < n {
      NameIsTheLast(lines[..n], k);
    }
  }

  function OwnData(line: string): seq<string> {
    if DATA <= line then [Trim(line[5..])] else []
  }

  lemma DataLast(lines: seq<string>, last: string)
    ensures DataLines(lines + [last]) == DataLines(lines) + OwnData(last)
  {
    assert (lines + [last])[..|lines|] == lines;
    assert EVENT[0] == 'e' && DATA[0] == 'd';
  }

  /** Each `data:` line adds its own text in its place, and no other line adds any. */
  lemma {:induction false} DataAround(a: seq<string>, line: string, b: seq<string>)
    ensures DataLines(a + [line] + b)
            == DataLines(a) + (if DATA <= line then [Trim(line[5..])] else []) + DataLines(b)
    decreases |b|
  {
    if b == [] {
      assert a + [line] + b == a + [line];
      DataLast(a, line);
    } else {
      var n := |b| - 1;
      var front, last := b[..n], b[n];
      assert a + [line] + b == (a + [line] + front) + [last] && b == front + [last];
      DataAround(a, line, front);
      DataLast(a + [line] + front, last);
      DataLast(front, last);
      DataGroups(DataLines(a), OwnData(line), DataLines(front), OwnData(last));
    }
  }

  lemma DataGroups(a: seq<string>, b: seq<string>, c: seq<string>, d: seq<string>)
    ensures (a + b + c) + d == a + b + (c + d)
  {
  }

  /** The text an event hands over to be parsed, if it is a notification with data. */
  function Payload(raw: string): Option<string> {
    var lines := Lines(raw);
    if EventName(lines) != NOTIFICATION || DataLines(lines) == [] then None
    else Some(Join(DataLines(lines)))
  }

  predicate HasData(lines: seq<string>) {
    exists i :: 0 <= i < |lines| && DATA <= lines[i]
  }

  lemma {:induction false} SomeData(lines: seq<string>)
    ensures DataLines(lines) != [] <==> HasData(lines)
    decreases |lines|
  {
    if lines != [] {
      var n := |lines| - 1;
      SomeData(lines[..n]);
      assert lines == lines[..n] + [lines[n]];
      DataLast(lines[..n], lines[n]);
    }
  }

  lemma PayloadOfLines(lines: seq<string>)
    requires lines != [] && forall line <- lines :: OneLine(line)
    ensures Payload(Join(lines)).Some? <==> EventName(lines) == NOTIFICATION && DataLines(lines) != []
    ensures Payload(Join(lines)).Some? ==>
              DataLines(lines) != [] && Payload(Join(lines)).value == Join(DataLines(lines))
  {
    LinesOfJoin(lines);
  }

  /** An event is handed over if and only if its last `event:` line names a notification and it
      has a `data:` line, and then with the data lines' text; `k` is the place of that last
      `event:` line. */
  lemma PayloadIff(lines: seq<string>, k: int)
    requires lines != [] && forall line <- lines :: OneLine(line)
    requires -1 <= k < |lines|
    requires forall j :: k < j < |lines| ==> !(EVENT <= lines[j])
    requires k >= 0 ==> EVENT <= lines[k]
    ensures Payload(Join(lines)).Some?
            <==> k >= 0 && Trim(lines[k][6..]) == "notification" && HasData(lines)
    ensures Payload(Join(lines)).Some? ==>
              DataLines(lines) != [] && Payload(Join(lines)).value == Join(DataLines(lines))
  {
    PayloadOfLines(lines);
    NameIsTheLast(lines, k);
    SomeData(lines);
  }

  function PayloadList(raw: string): seq<string> {
    match Payload(raw)
    case Some(p) => [p]
    case None => []
  }

  function Payloads(events: seq<string>): seq<string> {
    if events == [] then [] else PayloadList(events[0]) + Payloads(events[1..])
  }

  lemma {:induction false} PayloadsJoin(a: seq<string>, b: seq<string>)
    ensures Payloads(a + b) == Payloads(a) + Payloads(b)
  {
    if a == [] {
      assert a + b == b;
    } else {
      var all := a + b;
      assert all[1..] == a[1..] + b && all[0] == a[0];
      PayloadsJoin(a[1..], b);
      Associative(PayloadList(a[0]), Payloads(a[1..]), Payloads(b));
    }
  }

  lemma Associative(a: seq<string>, b: seq<string>, c: seq<string>)
    ensures a + (b + c) == (a + b) + c
  {
  }

  // ---- Encoding ----

  function DataFields(lines: seq<string>): (r: seq<string>)
    ensures |r| == |lines| && forall i :: 0 <= i < |lines| ==> r[i] == DATA + lines[i]
  {
    seq(|lines|, i requires 0 <= i < |lines| => DATA + lines[i])
  }

  function Trimmed(lines: seq<string>): (r: seq<string>)
    ensures |r| == |lines| && forall i :: 0 <= i < |lines| ==> r[i] == Trim(lines[i])
  {
    seq(|lines|, i requires 0 <= i < |lines| => Trim(lines[i]))
  }

  /** What decoding leaves of a body: each line without surrounding white space. */
  function Cleaned(body: string): string {
    Join(Trimmed(Lines(body)))
  }

  lemma FieldsAreLines(body: string)
    ensures forall line <- [EVENT + NOTIFICATION] + DataFields(Lines(body)) :: OneLine(line) && line != []
  {
    LinesAreLines(body);
    var fields := DataFields(Lines(body));
    forall line | line in fields ensures OneLine(line) && line != [] {
      var i :| 0 <= i < |fields| && fields[i] == line;
      assert Lines(body)[i] in Lines(body);
    }
  }

  lemma ReadDataField(lines: seq<string>, line: string)
    ensures DataLines(lines + [DATA + line]) == DataLines(lines) + [Trim(line)]
    ensures EventName(lines + [DATA + line]) == EventName(lines)
  {
    var all := lines + [DATA + line];
    assert all[..|lines|] == lines;
    assert (DATA + line)[0] == 'd' && (DATA + line)[|DATA|..] == line;
  }

  lemma ReadNameField()
    ensures DataLines([EVENT + NOTIFICATION]) == []
    ensures EventName([EVENT + NOTIFICATION]) == Trim(NOTIFICATION)
  {
    var line := EVENT + NOTIFICATION;
    assert line[|EVENT|..] == NOTIFICATION;
  }

  lemma LastField(first: string, lines: seq<string>)
    requires lines != []
    ensures var n := |lines| - 1;
            && [first] + DataFields(lines) == ([first] + DataFields(lines[..n])) + [DATA + lines[n]]
            && Trimmed(lines) == Trimmed(lines[..n]) + [Trim(lines[n])]
  {
  }

  lemma {:induction false} FieldsRead(lines: seq<string>)
    ensures var all := [EVENT + NOTIFICATION] + DataFields(lines);
            DataLines(all) == Trimmed(lines) && EventName(all) == Trim(NOTIFICATION)
    decreases |lines|
  {
    var first := EVENT + NOTIFICATION;
    if lines == [] {
      ReadNameField();
      assert [first] + DataFields(lines) == [first];
    } else {
      var n := |lines| - 1;
      FieldsRead(lines[..n]);
      ReadDataField([first] + DataFields(lines[..n]), lines[n]);
      LastField(first, lines);
    }
  }

  /** The text of an encoded notification up to its closing blank line. */
  function RawEvent(body: string): string {
    Join([EVENT + NOTIFICATION] + DataFields(Lines(body)))
  }

  /** One notification event, its body on one `data:` line per line of text. */
  function Encoded(body: string): string {
    RawEvent(body) + "\n\n"
  }

  lemma FirstEvent(raw: string, more: string)
    requires Tight(raw)
    ensures Split((raw + "\n\n") + more) == Cut([raw] + Split(more).events, Split(more).rest)
  {
    TightEndsAtBlankLine(raw, more);
    var all := (raw + "\n\n") + more;
    assert all[..|raw|] == raw && all[|raw| + 2..] == more;
  }

  lemma PayloadOfEncoded(body: string)
    ensures PayloadList(RawEvent(body)) == [Cleaned(body)]
  {
    var fields := [EVENT + NOTIFICATION] + DataFields(Lines(body));
    FieldsAreLines(body);
    LinesOfJoin(fields);
    FieldsRead(Lines(body));
    TrimKeepsIff(NOTIFICATION);
  }

  /** Reading one encoded notification, whatever its body and whatever follows. */
  lemma EncodedIsOneEvent(body: string, more: string)
    ensures Split(Encoded(body) + more) == Cut([RawEvent(body)] + Split(more).events, Split(more).rest)
    ensures PayloadList(RawEvent(body)) == [Cleaned(body)]
  {
    FieldsAreLines(body);
    JoinIsTight([EVENT + NOTIFICATION] + DataFields(Lines(body)));
    FirstEvent(RawEvent(body), more);
    PayloadOfEncoded(body);
  }

  function EncodedAll(bodies: seq<string>): string {
    if bodies == [] then "" else Encoded(bodies[0]) + EncodedAll(bodies[1..])
  }

  function CleanedAll(bodies: seq<string>): seq<string> {
    if bodies == [] then [] else [Cleaned(bodies[0])] + CleanedAll(bodies[1..])
  }

  /** Encoding any list of notifications and decoding the text leaves nothing over and gives
      back their bodies, line by line without surrounding white space. */
  lemma {:induction false} DecodingUndoesEncoding(bodies: seq<string>)
    ensures Payloads(Split(EncodedAll(bodies)).events) == CleanedAll(bodies)
    ensures Split(EncodedAll(bodies)).rest == ""
    decreases |bodies|
  {
    if bodies != [] {
      DecodingUndoesEncoding(bodies[1..]);
      EncodedIsOneEvent(bodies[0], EncodedAll(bodies[1..]));
      var rest := Split(EncodedAll(bodies[1..])).events;
      assert ([RawEvent(bodies[0])] + rest)[1..] == rest;
    }
  }

  /** No line of the body begins or ends with white space. */
  predicate Clean(body: string) {
    forall line <- Lines(body) :: Trim(line) == line
  }

  /** A body comes back unchanged exactly when it is clean. */
  lemma BodySurvivesIff(body: string)
    ensures Cleaned(body) == body <==> Clean(body)
  {
    var lines := Lines(body);
    LinesAreLines(body);
    if forall line <- lines :: Trim(line) == line {
      forall i | 0 <= i < |lines| ensures Trimmed(lines)[i] == lines[i] {
        assert lines[i] in lines;
      }
      assert Trimmed(lines) == lines;
    }
    if Cleaned(body) == body {
      forall line | line in Trimmed(lines) ensures OneLine(line) {
        var i :| 0 <= i < |lines| && Trimmed(lines)[i] == line;
        assert lines[i] in lines;
        TrimIsOneLine(lines[i]);
      }
      LinesOfJoin(Trimmed(lines));
      assert Trimmed(lines) == lines;
    }
  }

  lemma {:induction false} CleanedAllIff(bodies: seq<string>)
    ensures CleanedAll(bodies) == bodies <==> forall body <- bodies :: Cleaned(body) == body
  {
    if bodies != [] {
      var rest := bodies[1..];
      CleanedAllIff(rest);
      assert CleanedAll(bodies)[1..] == CleanedAll(rest) && CleanedAll(bodies)[0] == Cleaned(bodies[0]);
      assert bodies == [bodies[0]] + rest;
      assert (forall body <- bodies :: Cleaned(body) == body)
        <==> Cleaned(bodies[0]) == bodies[0] && forall body <- rest :: Cleaned(body) == body;
    }
  }

  lemma CleanedAllKeepsIff(bodies: seq<string>)
    ensures CleanedAll(bodies) == bodies <==> forall body <- bodies :: Clean(body)
  {
    CleanedAllIff(bodies);
    forall body | body in bodies ensures Cleaned(body) == body <==> Clean(body) {
      BodySurvivesIff(body);
    }
  }

  /** Decoding the encoding of a list gives the list back if and only if no line of any body
      begins or ends with white space. */
  lemma RoundTripIff(bodies: seq<string>)
    ensures Payloads(Split(EncodedAll(bodies)).events) == bodies <==> forall body <- bodies :: Clean(body)
  {
    DecodingUndoesEncoding(bodies);
    CleanedAllKeepsIff(bodies);
  }

  lemma TrimIsOneLine(line: string)
    requires OneLine(line)
    ensures OneLine(Trim(line))
  {
    TrimStartWithin(line);
    TrimEndWithin(TrimStart(line));
  }

  lemma {:induction false} TrimStartWithin(s: string)
    ensures forall c <- TrimStart(s) :: c in s
  {
    if s != [] && IsSpace(s[0]) {
      TrimStartWithin(s[1..]);
    }
  }

  lemma {:induction false} TrimEndWithin(s: string)
    ensures forall c <- TrimEnd(s) :: c in s
  {
    if s != [] && IsSpace(s[|s| - 1]) {
      TrimEndWithin(s[..|s| - 1]);
    }
  }
}
