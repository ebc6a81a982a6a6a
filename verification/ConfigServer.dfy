/** handle_get_config and handle_post_config of main/http_server.c, on the state they export
    and replace. */
module ConfigServer {
  import opened Wrappers
  import opened QuotedText
  import opened ConfigText
  import opened ConfigRoundTrip
  import opened ChunkedWriter

  /** What does not change on a board: its pins, its name, the hostname it falls back to, the
      longest label, and how the wire store identifies a pin label. */
  datatype Board = Board(labels: seq<string>, name: string, factoryName: string, maxLabel: nat, key: string -> string)

  /** What a config document carries. */
  datatype Settings = Settings(hostname: string, boardId: string, wires: map<string, string>)

  function Hostname(b: Board, s: Settings): string {
    if s.hostname == "" then b.factoryName else s.hostname
  }

  /** harness_dut_get_wire, with "" for a pin that has none. */
  function Wire(b: Board, s: Settings, pin: string): string {
    if b.key(pin) in s.wires then s.wires[b.key(pin)] else ""
  }

  function Lower(c: char): char {
    if 'A' <= c <= 'Z' then (c as int + 32) as char else c
  }

  /** strcasecmp(a, b) == 0 */
  predicate SameLabel(a: string, b: string) {
    |a| == |b| && forall i | 0 <= i < |a| :: Lower(a[i]) == Lower(b[i])
  }

  predicate KnownLabel(labels: seq<string>, pin: string) {
    exists i :: 0 <= i < |labels| && SameLabel(labels[i], pin)
  }

  // ---------------------------------------------------------------------------------------
  // Export

  /** The entries the exporter prints for these pins. */
  function EntriesOf(b: Board, s: Settings, labels: seq<string>): seq<Entry> {
    if labels == [] then []
    else
      (if Wire(b, s, labels[0]) == "" then [] else [Entry(labels[0], Wire(b, s, labels[0]))])
      + EntriesOf(b, s, labels[1..])
  }

  function Snapshot(b: Board, s: Settings): Config {
    Config(Hostname(b, s), s.boardId, b.name, EntriesOf(b, s, b.labels))
  }

  /** The text of one printed entry; `first` tells whether it needs a comma before it. */
  function EntryPrint(e: Entry, first: bool): string {
    (if first then "" else ",") + ("{" + (Field("pin", e.pin) + ("," + (Field("wire", e.wire) + "}"))))
  }

  function HeadPrint(c: Config): string {
    "{" + (Quoted("version") + (":1," + (Field("hostname", c.hostname) + ("," + (Field("board_id", c.boardId)
      + ("," + (Field("board", c.board) + ("," + (Quoted("wires") + ":["))))))))) 
  }

  /** The entries as they are written: a piece too long for the formatting buffer is cut. */
  function CutEntries(es: seq<Entry>, first: bool): string {
    if es == [] then "]}" else Cut(EntryPrint(es[0], first)) + CutEntries(es[1..], false)
  }

  /** What the exporter writes, piece by piece. */
  function Document(c: Config): string {
    Cut(HeadPrint(c)) + CutEntries(c.entries, true)
  }

  predicate EntriesFit(es: seq<Entry>, first: bool) {
    es != [] ==> |EntryPrint(es[0], first)| < 2048 && EntriesFit(es[1..], false)
  }

  /** Every printed piece fits the formatting buffer. */
  predicate Fits(c: Config) {
    |HeadPrint(c)| < 2048 && EntriesFit(c.entries, true)
  }

  lemma {:induction false} CutEntriesExactly(es: seq<Entry>, first: bool)
    ensures |CutEntries(es, first)| <= |EntriesText(es, first)|
    ensures |CutEntries(es, first)| == |EntriesText(es, first)| <==> EntriesFit(es, first)
    ensures EntriesFit(es, first) ==> CutEntries(es, first) == EntriesText(es, first)
  {
    hide EntryPrint;
    if es != [] {
      CutEntriesExactly(es[1..], false);
      EntryText(es[0], first, es[1..]);
      assert [es[0]] + es[1..] == es;
    }
  }

  /** That is the document itself if and only if every piece fits. */
  lemma DocumentExactly(c: Config)
    ensures Document(c) == ExportText(c) <==> Fits(c)
  {
    hide HeadPrint, EntriesText, CutEntries, EntriesFit, ExportText;
    CutEntriesExactly(c.entries, true);
    HeadAndEntries(c);
  }

  lemma Push(a: string, b: string, tail: string, c: string)
    requires c == b + tail
    ensures (a + b) + tail == a + c
  {}

  lemma EntryText(e: Entry, first: bool, es: seq<Entry>)
    ensures EntriesText([e] + es, first) == EntryPrint(e, first) + EntriesText(es, false)
  {
    assert ([e] + es)[1..] == es;
    EntryChain(if first then "" else ",", Field("pin", e.pin), Field("wire", e.wire), EntriesText(es, false));
    assert (if first then "" else ",") + "{" == if first then "{" else ",{";
  }

  lemma EntryChain(sep: string, p: string, w: string, tail: string)
    ensures (sep + ("{" + (p + ("," + (w + "}"))))) + tail == (sep + "{") + (p + ("," + (w + ("}" + tail))))
  {
    Push(w, "}", tail, "}" + tail);
    var a1, c1 := w + "}", w + ("}" + tail);
    Push(",", a1, tail, c1);
    Push(p, "," + a1, tail, "," + c1);
    Push("{", p + ("," + a1), tail, p + ("," + c1));
    Push(sep, "{" + (p + ("," + a1)), tail, "{" + (p + ("," + c1)));
    Push(sep, "{", p + ("," + c1), "{" + (p + ("," + c1)));
  }

  // ---------------------------------------------------------------------------------------
  // Import

  /** The hostname after the import: one that is present, not empty and not too long. */
  function HostnameFrom(body: string, was: string): string {
    var hn := JsonStrAfter(body, 0, "\"hostname\"");
    if hn.Some? && 0 < hn.value.len < DEVICE_NAME_MAX_LEN then Slice(body, hn.value) else was
  }

  function BoardIdFrom(body: string, was: string): string {
    var bi := JsonStrAfter(body, 0, "\"board_id\"");
    if bi.Some? && bi.value.len < DEVICE_NAME_MAX_LEN then Slice(body, bi.value) else was
  }

  predicate Supported(body: string) {
    var v := JsonIntAfter(body, 0, "\"version\"");
    v.None? || v.value == CONFIG_EXPORT_VERSION
  }

  /** Every pin of the board loses its wire. */
  function Cleared(b: Board, wires: map<string, string>, labels: seq<string>): map<string, string>
    decreases labels
  {
    if labels == [] then wires else Cleared(b, wires[b.key(labels[0]) := ""], labels[1..])
  }

  /** An item is applied when its names are short enough and the board has the pin. */
  predicate Applies(b: Board, item: Item) {
    item.Pair? && |item.pin| < b.maxLabel && |item.wire| < b.maxLabel && KnownLabel(b.labels, item.pin)
  }

  function ApplyAll(b: Board, wires: map<string, string>, items: seq<Item>): map<string, string> {
    if items == [] then wires
    else
      var init := ApplyAll(b, wires, items[..|items| - 1]);
      var item := items[|items| - 1];
      if Applies(b, item) then init[b.key(item.pin) := item.wire] else init
  }

  function ItemsOf(body: string): seq<Item> {
    if WiresStart(body).None? then [] else Scan(body, WiresStart(body).value)
  }

  function Imported(b: Board, s: Settings, body: string): Settings {
    if !Supported(body) then s
    else
      Settings(HostnameFrom(body, s.hostname), BoardIdFrom(body, s.boardId),
               ApplyAll(b, Cleared(b, s.wires, b.labels), ItemsOf(body)))
  }

  lemma EntriesNext(b: Board, s: Settings, labels: seq<string>, i: nat)
    requires i < |labels|
    ensures EntriesOf(b, s, labels[i..]) ==
      if Wire(b, s, labels[i]) != "" then [Entry(labels[i], Wire(b, s, labels[i]))] + EntriesOf(b, s, labels[i + 1..])
      else EntriesOf(b, s, labels[i + 1..])
  {
    assert labels[i..][1..] == labels[i + 1..];
  }

  /** Printing one more entry of those that are left. */
  lemma EntryDone(text: string, left: seq<Entry>, first: bool)
    requires left != []
    ensures text + CutEntries(left, first) == text + Cut(EntryPrint(left[0], first)) + CutEntries(left[1..], false)
  {
    hide EntryPrint;
    var piece, more := Cut(EntryPrint(left[0], first)), CutEntries(left[1..], false);
    Push(text, piece, more, piece + more);
  }

  lemma DocumentDone(c: Config, before: string, text: string, first: bool)
    requires text + CutEntries([], first) == CutEntries(c.entries, true)
    ensures before + Cut(HeadPrint(c)) + text + "]}" == before + Document(c)
  {
    hide HeadPrint, Cut;
    var head := Cut(HeadPrint(c));
    assert text + "]}" == CutEntries(c.entries, true);
    Push(before + head, text, "]}", text + "]}");
    Push(before, head, text + "]}", Document(c));
  }

  lemma NoPinNoVisit(body: string, p: nat)
    requires p <= |body| && JsonStrAfter(body, p, "\"pin\"").None?
    ensures Visit(body, p).None?
  {}

  lemma NoEntries(b: Board, s: Settings)
    ensures EntriesOf(b, s, []) == []
  {}

  class Bridge {
    const board: Board
    var settings: Settings

    constructor (board: Board, settings: Settings)
      ensures this.board == board && this.settings == settings
    {
      this.board, this.settings := board, settings;
    }

    /** handle_get_config, after the header: the document is written to the stream piecewise. */
    method ExportConfig(s: Stream)
      requires s.Valid()
      modifies s, s.sock, s.buf
      ensures s.Valid() && s.content == old(s.content) + Document(Snapshot(board, settings))
    {
      hide Cut, CutEntries, Document, EntryPrint, HeadPrint, EntriesOf, Stream.Valid;
      ghost var c := Snapshot(board, settings);
      assert board.labels[0..] == board.labels;
      HeadAlone(c);
      s.Printf(HeadPrint(Config(Hostname(board, settings), settings.boardId, board.name, [])));
      ghost var text, left := "", c.entries;
      ghost var head, all := s.content, CutEntries(c.entries, true);
      var first := true;
      var i := 0;
      while i < |board.labels|
        invariant 0 <= i <= |board.labels| && s.Valid() && s.content == head + text
        invariant left == EntriesOf(board, settings, board.labels[i..])
        invariant text + CutEntries(left, first) == all
      {
        var wire := Wire(board, settings, board.labels[i]);
        EntriesNext(board, settings, board.labels, i);
        if wire != "" {
          ghost var piece := Cut(EntryPrint(left[0], first));
          s.Printf(EntryPrint(Entry(board.labels[i], wire), first));
          EntryDone(text, left, first);
          Push(head, text, piece, text + piece);
          text := text + piece;
          left := left[1..];
          first := false;
        }
        i := i + 1;
      }
      s.Write("]}");
      NoEntries(board, settings);
      assert board.labels[i..] == [];
      DocumentDone(c, old(s.content), text, first);
    }

    /** dut_pin_index_with_label(pin) >= 0 */
    method HasPin(pin: string) returns (known: bool)
      ensures known == KnownLabel(board.labels, pin)
    {
      for i := 0 to |board.labels|
        invariant forall k | 0 <= k < i :: !SameLabel(board.labels[k], pin)
      {
        if SameLabel(board.labels[i], pin) { return true; }
      }
      return false;
    }

    /** harness_dut_set_wire, which knows every pin of the board. */
    method SetWire(pin: string, wire: string)
      modifies this
      ensures settings == old(settings).(wires := old(settings.wires)[board.key(pin) := wire])
    {
      settings := settings.(wires := settings.wires[board.key(pin) := wire]);
    }

    method ClearWires()
      modifies this
      ensures settings == old(settings).(wires := Cleared(board, old(settings.wires), board.labels))
    {
      var i := 0;
      while i < |board.labels|
        invariant 0 <= i <= |board.labels|
        invariant settings == old(settings).(wires := settings.wires)
        invariant Cleared(board, settings.wires, board.labels[i..]) == Cleared(board, old(settings.wires), board.labels)
      {
        SetWire(board.labels[i], "");
        assert board.labels[i..][1..] == board.labels[i + 1..];
        i := i + 1;
      }
      assert board.labels[i..] == [];
    }

    /** One turn of the wire loop, at a pin that has been found. */
    method VisitPin(body: string, p: nat, pin: Value) returns (applied: bool, next: nat, ghost item: Item)
      requires p <= |body| && JsonStrAfter(body, p, "\"pin\"") == Some(pin)
      modifies this
      ensures p < next <= |body| && Visit(body, p) == Some((item, next)) && (applied <==> Applies(board, item))
      ensures settings == if applied then old(settings).(wires := old(settings.wires)[board.key(item.pin) := item.wire])
                          else old(settings)
    {
      hide StrStr, JsonStrAfter;
      item := NoWire;
      var end := pin.start + pin.len;
      var nextPin := StrStr(body, end, "\"pin\"");
      var wire := JsonStrAfter(body, end + 1, "\"wire\"");
      if wire.None? || (nextPin.Some? && wire.value.start > nextPin.value) {
        return false, if nextPin.Some? then nextPin.value else end + 1, NoWire;
      }
      var pb, wb := Slice(body, pin), Slice(body, wire.value);
      item := Pair(pb, wb);
      next := wire.value.start + wire.value.len + 1;
      var known := HasPin(pb);
      applied := |pb| < board.maxLabel && |wb| < board.maxLabel && known;
      if applied { SetWire(pb, wb); }
    }

    /** The wire loop.  It ends for every body, since its scan position goes forward at each
        visit and never passes the end; every pin it visits is applied or skipped. */
    method ImportWires(body: string, start: nat) returns (applied: nat, skipped: nat)
      requires start <= |body|
      modifies this
      ensures settings == old(settings).(wires := ApplyAll(board, old(settings.wires), Scan(body, start)))
      ensures applied + skipped == |Scan(body, start)|
    {
      hide StrStr, JsonStrAfter, Scan, ApplyAll, Visit, Applies;
      applied, skipped := 0, 0;
      ghost var done := [];
      ApplyNone(board, settings.wires);
      var p := start;
      while true
        invariant p <= |body| && done + Scan(body, p) == Scan(body, start) && |done| == applied + skipped
        invariant settings == old(settings).(wires := ApplyAll(board, old(settings.wires), done))
        decreases |body| - p
      {
        ScanUnfold(body, p);
        var pin := JsonStrAfter(body, p, "\"pin\"");
        if pin.None? {
          NoPinNoVisit(body, p);
          assert done + [] == done;
          break;
        }
        var ok, next, item := VisitPin(body, p, pin.value);
        if ok { applied := applied + 1; } else { skipped := skipped + 1; }
        ApplyOne(board, old(settings.wires), done, item);
        assert done + ([item] + Scan(body, next)) == (done + [item]) + Scan(body, next);
        done := done + [item];
        p := next;
      }
    }

    /** handle_post_config */
    method ImportConfig(body: string) returns (supported: bool, applied: nat, skipped: nat)
      modifies this
      ensures supported == Supported(body) && settings == Imported(board, old(settings), body)
      ensures supported ==> applied + skipped == |ItemsOf(body)|
    {
      hide StrStr, JsonStrAfter, JsonIntAfter, Scan, ApplyAll, Cleared, WiresStart;
      supported, applied, skipped := true, 0, 0;
      var version := JsonIntAfter(body, 0, "\"version\"");
      if version.Some? && version.value != CONFIG_EXPORT_VERSION {
        supported := false;
        return;
      }
      var hn := JsonStrAfter(body, 0, "\"hostname\"");
      if hn.Some? && hn.value.len > 0 && hn.value.len < DEVICE_NAME_MAX_LEN {
        settings := settings.(hostname := Slice(body, hn.value));
      }
      var bi := JsonStrAfter(body, 0, "\"board_id\"");
      if bi.Some? && bi.value.len < DEVICE_NAME_MAX_LEN {
        settings := settings.(boardId := Slice(body, bi.value));
      }
      ClearWires();
      ApplyNone(board, settings.wires);
      var wkey := WiresStart(body);
      if wkey.Some? {
        applied, skipped := ImportWires(body, wkey.value);
      }
    }
  }

  lemma ScanUnfold(t: string, p: nat)
    requires p <= |t|
    ensures Scan(t, p) == if Visit(t, p).None? then [] else [Visit(t, p).value.0] + Scan(t, Visit(t, p).value.1)
  {}

  lemma ApplyNone(b: Board, wires: map<string, string>)
    ensures ApplyAll(b, wires, []) == wires
  {}

  lemma ApplyOne(b: Board, wires: map<string, string>, items: seq<Item>, item: Item)
    ensures ApplyAll(b, wires, items + [item]) ==
              if Applies(b, item) then ApplyAll(b, wires, items)[b.key(item.pin) := item.wire]
              else ApplyAll(b, wires, items)
  {
    assert (items + [item])[..|items|] == items;
  }

  /** The head does not depend on the entries. */
  lemma HeadAlone(c: Config)
    ensures HeadPrint(c.(entries := [])) == HeadPrint(c)
  {}

  lemma HeadAndEntries(c: Config)
    ensures ExportText(c) == HeadPrint(c) + EntriesText(c.entries, true)
  {
    hide Field, Quoted, EntriesText;
    var tail := EntriesText(c.entries, true);
    var h, i, b := Field("hostname", c.hostname), Field("board_id", c.boardId), Field("board", c.board);
    var a1, c1 := Quoted("wires") + ":[", Quoted("wires") + (":[" + tail);
    Push(Quoted("wires"), ":[", tail, ":[" + tail);
    Push(",", a1, tail, c1);
    var a2, c2 := "," + a1, "," + c1;
    Push(b, a2, tail, c2);
    var a3, c3 := b + a2, b + c2;
    Push(",", a3, tail, c3);
    var a4, c4 := "," + a3, "," + c3;
    Push(i, a4, tail, c4);
    var a5, c5 := i + a4, i + c4;
    Push(",", a5, tail, c5);
    var a6, c6 := "," + a5, "," + c5;
    Push(h, a6, tail, c6);
    var a7, c7 := h + a6, h + c6;
    Push(":1,", a7, tail, c7);
    var a8, c8 := ":1," + a7, ":1," + c7;
    Push(Quoted("version"), a8, tail, c8);
    Push("{", Quoted("version") + a8, tail, Quoted("version") + c8);
  }
}
