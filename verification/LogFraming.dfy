/** log_vprintf_hook of main/log_server.c: from a line of log text to a syslog message (RFC 5424)
    in an octet-counted frame (section 3.4.1 of RFC 6587). */
module LogFraming {
  import opened Wrappers
  import opened Numerals

  const MSG_SIZE: nat := 512
  const FACILITY_USER := 1

  // ---------------------------------------------------------------------------------------
  // Frames

  /** MSG-LEN SP SYSLOG-MSG */
  function Frame(msg: string): string {
    Print(|msg|, Dec) + " " + msg
  }

  function Frames(msgs: seq<string>): string {
    if msgs == [] then "" else Frame(msgs[0]) + Frames(msgs[1..])
  }

  /** One frame off the front of a stream: the message, and how long the frame was.  MSG-LEN
      starts with a digit other than 0. */
  function FirstFrame(s: string): (r: Option<(string, nat)>)
    ensures r.Some? ==> 0 < r.value.1 <= |s|
  {
    var d := Run(s, Dec);
    if d == 0 || s[0] == '0' || d == |s| || s[d] != ' ' then None
    else
      var n := Read(s[..d], Dec);
      if d + 1 + n > |s| then None else Some((s[d + 1..d + 1 + n], d + 1 + n))
  }

  /** Octet counting, as a receiver does it: the messages of a whole stream. */
  function Decode(s: string): Option<seq<string>>
    decreases |s|
  {
    if s == "" then Some([])
    else match FirstFrame(s)
      case None => None
      case Some(f) =>
        match Decode(s[f.1..])
        case None => None
        case Some(ms) => Some([f.0] + ms)
  }

  predicate AllNonEmpty(msgs: seq<string>) {
    forall k | 0 <= k < |msgs| :: msgs[k] != ""
  }

  lemma FirstFrameIs(msg: string, rest: string)
    requires msg != ""
    ensures FirstFrame(Frame(msg) + rest) == Some((msg, |Frame(msg)|))
  {
    hide Print, Read, Run;
    var digits, s := Print(|msg|, Dec), Frame(msg) + rest;
    assert s == digits + (" " + msg + rest);
    RunPrint(|msg|, Dec, " " + msg + rest);
    ReadPrint(|msg|, Dec);
    NoLeadingZero(|msg|, Dec);
    var d := |digits|;
    assert s[..d] == digits && s[0] == digits[0] && s[d] == ' ';
    assert s[d + 1..d + 1 + |msg|] == msg;
  }

  /** Any sequence of frames is taken apart into the messages it was made of. */
  lemma {:induction false} FramesDecode(msgs: seq<string>)
    requires AllNonEmpty(msgs)
    ensures Decode(Frames(msgs)) == Some(msgs)
  {
    hide FirstFrame, Frame;
    if msgs != [] {
      FramesDecode(msgs[1..]);
      var f, rest := Frame(msgs[0]), Frames(msgs[1..]);
      FirstFrameIs(msgs[0], rest);
      FrameIsLong(msgs[0]);
      assert (f + rest)[|f|..] == rest;
      assert [msgs[0]] + msgs[1..] == msgs;
    }
  }

  lemma FrameIsLong(msg: string)
    ensures |Frame(msg)| > |msg|
  {}

  /** And nothing else is taken apart into them: the frames of a stream are determined. */
  lemma {:induction false} DecodesOnlyFrames(s: string, msgs: seq<string>)
    requires Decode(s) == Some(msgs)
    ensures s == Frames(msgs)
    decreases |s|
  {
    hide FirstFrame, Frame;
    if s != "" {
      var f := FirstFrame(s).value;
      DecodesOnlyFrames(s[f.1..], msgs[1..]);
      FrameAtFront(s);
      assert s == s[..f.1] + s[f.1..];
    }
  }

  lemma FrameAtFront(s: string)
    requires FirstFrame(s).Some?
    ensures var f := FirstFrame(s).value; s[..f.1] == Frame(f.0)
  {
    hide Print, Read, Run;
    var d, f := Run(s, Dec), FirstFrame(s).value;
    PrintRead(s[..d]);
    assert s[..f.1] == s[..d] + [s[d]] + s[d + 1..f.1];
  }

  lemma {:induction false} PrintRead(s: string)
    requires s != "" && AllDigits(s, Dec) && s[0] != '0'
    ensures Print(Read(s, Dec), Dec) == s && Read(s, Dec) > 0
  {
    hide DigitValue, DigitChar, AllDigits, Read;
    var init, c := s[..|s| - 1], s[|s| - 1];
    assert s == init + [c];
    DigitsMore(init, c, Dec);
    DecDigit(c);
    if init != "" {
      PrintRead(init);
      ReadMore(init, c, Dec);
    } else {
      ReadOne(c, Dec);
    }
  }

  lemma DecDigit(c: char)
    requires DigitValue(c) < 10
    ensures DigitChar(DigitValue(c)) == c && (DigitValue(c) == 0 ==> c == '0')
  {}

  // ---------------------------------------------------------------------------------------
  // Messages

  function Severity(level: char): (n: nat)
    ensures 3 <= n <= 7
  {
    match level case 'E' => 3 case 'W' => 4 case 'I' => 6 case 'D' => 7 case 'V' => 7 case _ => 6
  }

  /** %02d and %03d */
  function Two(n: nat): (s: string)
    requires n < 100
    ensures |s| == 2
  {
    [DigitChar(n / 10), DigitChar(n % 10)]
  }

  function Three(n: nat): (s: string)
    requires n < 1000
    ensures |s| == 3
  {
    [DigitChar(n / 100)] + Two(n % 100)
  }

  /** The RFC 5424 message for a line logged that many microseconds after start. */
  function Syslog(raw: string, us: nat): string
    requires raw != ""
  {
    var secs := us / 1000000;
    "<" + Print(FACILITY_USER * 8 + Severity(raw[0]), Dec) + ">1 2000-01-01T"
    + Two((secs / 3600) % 24) + ":" + Two((secs / 60) % 60) + ":" + Two(secs % 60)
    + "." + Three((us % 1000000) / 1000) + "Z esp32 esp - - - " + raw + "\n"
  }

  // ---------------------------------------------------------------------------------------
  // The reader of a message

  /** What an RFC 5424 reader makes of a message: priority, time of day, and the text. */
  datatype Logged = Logged(priority: nat, hour: nat, minute: nat, second: nat, milli: nat, text: string)

  /** The priority is between angle brackets; then come the version, the timestamp, and five more
      fields, each with a space behind it; the text goes to the end of the line. */
  function ReadMessage(s: string): Option<Logged> {
    if s == "" || s[0] != '<' then None
    else
      var d := Run(s[1..], Dec);
      if |s| < d + 46 || s[d + 1] != '>' then None
      else
        var h := s[d + 2..];
        if h[..13] == "1 2000-01-01T" && h[15] == ':' && h[18] == ':' && h[21] == '.'
           && h[25..43] == "Z esp32 esp - - - " && h[|h| - 1] == '\n'
        then Some(Logged(Read(s[1..d + 1], Dec), Read(h[13..15], Dec), Read(h[16..18], Dec), Read(h[19..21], Dec),
                         Read(h[22..25], Dec), h[43..|h| - 1]))
        else None
  }

  lemma TwoReads(n: nat)
    requires n < 100
    ensures Read(Two(n), Dec) == n
  {
    var s := Two(n);
    DigitBack(n / 10);
    DigitBack(n % 10);
    ReadOne(s[0], Dec);
    ReadMore([s[0]], s[1], Dec);
    assert s == [s[0]] + [s[1]];
  }

  lemma ThreeReads(n: nat)
    requires n < 1000
    ensures Read(Three(n), Dec) == n
  {
    var s, low := Three(n), Two(n % 100);
    TwoReads(n % 100);
    DigitBack(n / 100);
    ReadOne(s[0], Dec);
    ReadOne(low[0], Dec);
    ReadMore([low[0]], low[1], Dec);
    assert low == [low[0]] + [low[1]];
    ReadMore([s[0]], low[0], Dec);
    ReadMore([s[0]] + [low[0]], low[1], Dec);
    assert s == [s[0]] + [low[0]] + [low[1]];
  }

  /** The reader recovers the severity of the line's level letter under facility "user", the time
      of day, and the line. */
  lemma MessageReads(raw: string, us: nat)
    requires raw != ""
    ensures var c := raw[0];
      var severity := if c == 'E' then 3 else if c == 'W' then 4 else if c == 'D' || c == 'V' then 7 else 6;
      ReadMessage(Syslog(raw, us)) == Some(Logged(8 + severity,
        us / 3_600_000_000 % 24, us / 60_000_000 % 60, us / 1_000_000 % 60, us / 1000 % 1000, raw))
  {
    hide Two, Three, Read, Print, ReadMessage, Syslog;
    var hour, minute, second := us / 3_600_000_000 % 24, us / 60_000_000 % 60, us / 1_000_000 % 60;
    var milli := us / 1000 % 1000;
    SyslogIs(raw, us, hour, minute, second, milli);
    FieldsRead(8 + Severity(raw[0]), hour, minute, second, milli, raw);
  }

  /** The text behind the priority. */
  function Rest(hour: nat, minute: nat, second: nat, milli: nat, raw: string): string
    requires hour < 24 && minute < 60 && second < 60 && milli < 1000
  {
    "1 2000-01-01T" + Two(hour) + ":" + Two(minute) + ":" + Two(second) + "." + Three(milli)
    + "Z esp32 esp - - - " + raw + "\n"
  }

  lemma SyslogIs(raw: string, us: nat, hour: nat, minute: nat, second: nat, milli: nat)
    requires raw != "" && hour == us / 3_600_000_000 % 24 && minute == us / 60_000_000 % 60
    requires second == us / 1_000_000 % 60 && milli == us / 1000 % 1000
    ensures Syslog(raw, us) == "<" + Print(8 + Severity(raw[0]), Dec) + ">" + Rest(hour, minute, second, milli, raw)
  {
    hide Two, Three, Print, Severity;
    Clock(us);
    var a, b, c, d := Two(hour), Two(minute), Two(second), Three(milli);
    assert ">1 2000-01-01T" == ">" + "1 2000-01-01T";
    Joined("<" + Print(8 + Severity(raw[0]), Dec) + ">", a, b, c, d, raw);
  }

  lemma Joined(p: string, a: string, b: string, c: string, d: string, raw: string)
    ensures p + "1 2000-01-01T" + a + ":" + b + ":" + c + "." + d + "Z esp32 esp - - - " + raw + "\n"
      == p + ("1 2000-01-01T" + a + ":" + b + ":" + c + "." + d + "Z esp32 esp - - - " + raw + "\n")
  {}

  lemma FieldsRead(n: nat, hour: nat, minute: nat, second: nat, milli: nat, raw: string)
    requires hour < 24 && minute < 60 && second < 60 && milli < 1000
    ensures ReadMessage("<" + Print(n, Dec) + ">" + Rest(hour, minute, second, milli, raw))
      == Some(Logged(n, hour, minute, second, milli, raw))
  {
    hide Two, Three, Read, Print, ReadMessage;
    TwoReads(hour);
    TwoReads(minute);
    TwoReads(second);
    ThreeReads(milli);
    var h := Rest(hour, minute, second, milli, raw);
    HeadReads(Two(hour), Two(minute), Two(second), Three(milli), raw, h);
    PriorityReads(n, h, raw);
  }

  lemma PriorityReads(n: nat, h: string, raw: string)
    requires |h| == 44 + |raw| && h[..13] == "1 2000-01-01T" && h[15] == ':' && h[18] == ':' && h[21] == '.'
    requires h[25..43] == "Z esp32 esp - - - " && h[43..|h| - 1] == raw && h[|h| - 1] == '\n'
    ensures ReadMessage("<" + Print(n, Dec) + ">" + h) == Some(Logged(n,
      Read(h[13..15], Dec), Read(h[16..18], Dec), Read(h[19..21], Dec), Read(h[22..25], Dec), raw))
  {
    hide Read, Run, Print;
    var digits := Print(n, Dec);
    var s := "<" + digits + ">" + h;
    ReadPrint(n, Dec);
    RunPrint(n, Dec, ">" + h);
    assert s[1..] == digits + (">" + h);
    assert s[|digits| + 2..] == h && s[1..|digits| + 1] == digits;
  }

  lemma HeadReads(hour: string, minute: string, second: string, milli: string, raw: string, h: string)
    requires |hour| == 2 && |minute| == 2 && |second| == 2 && |milli| == 3
    requires h == "1 2000-01-01T" + hour + ":" + minute + ":" + second + "." + milli + "Z esp32 esp - - - " + raw + "\n"
    ensures |h| == 44 + |raw| && h[..13] == "1 2000-01-01T" && h[13..15] == hour && h[15] == ':'
    ensures h[16..18] == minute && h[18] == ':' && h[19..21] == second && h[21] == '.' && h[22..25] == milli
    ensures h[25..43] == "Z esp32 esp - - - " && h[43..|h| - 1] == raw && h[|h| - 1] == '\n'
  {
    var front := "1 2000-01-01T" + hour + ":" + minute + ":" + second + "." + milli;
    var tail := "Z esp32 esp - - - " + (raw + "\n");
    TimeReads(hour, minute, second, milli, front);
    assert h == front + tail;
    Behind(front, tail);
    assert h[25..43] == tail[..18] && h[43..|h| - 1] == tail[18..|tail| - 1] == raw;
  }

  lemma Behind(front: string, tail: string)
    ensures forall i, j | 0 <= i <= j <= |front| :: (front + tail)[i..j] == front[i..j]
    ensures forall i | 0 <= i < |front| :: (front + tail)[i] == front[i]
    ensures forall i, j | 0 <= i <= j <= |tail| :: (front + tail)[|front| + i..|front| + j] == tail[i..j]
  {}

  lemma TimeReads(hour: string, minute: string, second: string, milli: string, s: string)
    requires |hour| == 2 && |minute| == 2 && |second| == 2 && |milli| == 3
    requires s == "1 2000-01-01T" + hour + ":" + minute + ":" + second + "." + milli
    ensures |s| == 25 && s[..13] == "1 2000-01-01T" && s[13..15] == hour && s[15] == ':'
    ensures s[16..18] == minute && s[18] == ':' && s[19..21] == second && s[21] == '.' && s[22..25] == milli
  {
    var a := "1 2000-01-01T" + hour + ":";
    var b := minute + ":" + second + ".";
    assert s == a + b + milli && |a| == 16 && |b| == 6;
    assert s[16..18] == b[0..2] == minute && s[19..21] == b[3..5] == second && s[22..25] == milli;
    assert s[18] == b[2] && s[21] == b[5];
  }

  lemma Clock(us: nat)
    ensures us / 1000000 / 3600 == us / 3_600_000_000 && us / 1000000 / 60 == us / 60_000_000
    ensures (us % 1000000) / 1000 == us / 1000 % 1000
  {
    var m, n := us / 1000000, us % 1000000;
    assert us == 1000000 * m + n;
    assert m == 3600 * (m / 3600) + m % 3600 && m == 60 * (m / 60) + m % 60;
    assert us / 1000 == 1000 * m + n / 1000;
  }

  predicate LineEnd(c: char) { c == '\n' || c == '\r' }

  /** raw without its trailing line ends */
  function Stripped(raw: string): string {
    if raw != "" && LineEnd(raw[|raw| - 1]) then Stripped(raw[..|raw| - 1]) else raw
  }

  /** Where the line ends are cut off: what is left ends in none, and what is cut is nothing else. */
  lemma {:induction false} StrippedIs(raw: string)
    ensures var s := Stripped(raw);
      && s <= raw && (s != "" ==> s[|s| - 1] !in {'\n', '\r'})
      && forall k | |s| <= k < |raw| :: raw[k] in {'\n', '\r'}
  {
    if raw != "" && LineEnd(raw[|raw| - 1]) { StrippedIs(raw[..|raw| - 1]); }
  }

  /** Writes the frame of a message over the message itself: the text moves up by the length of
      its prefix.  The message is dropped when it was cut short, or its frame would not fit. */
  method FrameInPlace(data: array<char>, syslogLen: nat) returns (queued: bool, len: nat)
    requires data.Length == MSG_SIZE && (syslogLen < MSG_SIZE ==> data[syslogLen] == '\0')
    modifies data
    ensures queued <==> 0 < syslogLen && syslogLen + |Print(syslogLen, Dec)| + 1 < MSG_SIZE
    ensures queued ==> len < MSG_SIZE && data[..len] == Frame(old(data[..syslogLen])) && data[len] == '\0'
  {
    hide Print;
    len := 0;
    if syslogLen == 0 || syslogLen >= MSG_SIZE { return false, 0; }
    var prefix := Print(syslogLen, Dec) + " ";
    if |prefix| + syslogLen >= MSG_SIZE { return false, 0; }
    ghost var msg := data[..syslogLen];
    forall k | 0 <= k < syslogLen + 1 { data[|prefix| + k] := data[k]; }
    assert data[|prefix|..|prefix| + syslogLen] == msg;
    forall k | 0 <= k < |prefix| { data[k] := prefix[k]; }
    len := |prefix| + syslogLen;
    assert data[..len] == prefix + msg;
    return true, len;
  }

  /** log_vprintf_hook, given the text that vsnprintf made of its arguments. */
  method Hook(text: string, us: nat) returns (queued: bool, frame: string)
    ensures var raw := Stripped(if |text| < MSG_SIZE then text else text[..MSG_SIZE - 1]);
      && (queued <==> 0 < |raw| <= 459)
      && (queued ==> frame == Frame(Syslog(raw, us)))
  {
    hide Syslog, Stripped;
    queued, frame := false, "";
    var raw := if |text| < MSG_SIZE then text else text[..MSG_SIZE - 1];
    raw := Strip(raw);
    if |raw| == 0 { return; }
    var msg := Syslog(raw, us);
    SyslogLength(raw, us);
    var data := new char[MSG_SIZE];
    var kept := if |msg| < MSG_SIZE then msg else msg[..MSG_SIZE - 1];
    forall k | 0 <= k < |kept| { data[k] := kept[k]; }
    data[|kept|] := '\0';
    FrameFits(|msg|);
    var len;
    assert |msg| < MSG_SIZE ==> data[..|msg|] == msg;
    queued, len := FrameInPlace(data, |msg|);
    if queued { frame := data[..len]; }
  }

  method Strip(text: string) returns (raw: string)
    ensures raw == Stripped(text)
  {
    var n := |text|;
    assert text[..n] == text;
    while n > 0 && LineEnd(text[n - 1])
      invariant 0 <= n <= |text| && Stripped(text) == Stripped(text[..n])
    {
      assert text[..n][..n - 1] == text[..n - 1];
      n := n - 1;
    }
    return text[..n];
  }

  lemma SyslogLength(raw: string, us: nat)
    requires raw != ""
    ensures |Syslog(raw, us)| == 48 + |raw|
  {
    hide Two, Three, Severity, Print;
    var n := FACILITY_USER * 8 + Severity(raw[0]);
    PrintLength(n);
    PrintLength(n / 10);
  }

  /** Of messages longer than 48, those up to 507 have a frame that fits. */
  lemma FrameFits(n: nat)
    requires n > 48
    ensures n + |Print(n, Dec)| + 1 < MSG_SIZE <==> n <= 507
  {
    hide Print;
    PrintLength(n);
    PrintLength(n / 10);
    PrintLength(n / 100);
    Tenths(n);
  }

  lemma Tenths(n: nat)
    ensures n / 10 / 10 == n / 100
  {}
}
