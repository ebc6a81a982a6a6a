/** Exporting a config from one board and importing it on another, or on the same one. */
module ConfigTransfer {
  import opened Wrappers
  import opened QuotedText
  import opened ConfigText
  import opened ConfigRoundTrip
  import opened ConfigMisled
  import opened ConfigServer
  import opened ChunkedCoding
  import opened ChunkedWriter

  /** Whether an exported wire survives the journey to board b. */
  predicate Carried(b: Board, pin: string, wire: string) {
    |pin| < b.maxLabel && |wire| < b.maxLabel && wire != "pin"
  }

  /** A board's pins are told apart by their labels, and by nothing less. */
  predicate TellsApart(b: Board, x: seq<string>, y: seq<string>) {
    forall p, q | p in x && q in y && b.key(p) == b.key(q) :: p == q
  }

  /** What the exporter needs: names without quotes, and a hostname and board ID that fit. */
  predicate Exportable(b: Board, s: Settings) {
    && Printable(Snapshot(b, s))
    && 0 < |Hostname(b, s)| < DEVICE_NAME_MAX_LEN && |s.boardId| < DEVICE_NAME_MAX_LEN
  }

  lemma {:induction false} EntriesAre(b: Board, s: Settings, labels: seq<string>, e: Entry)
    ensures e in EntriesOf(b, s, labels) <==> e.pin in labels && e.wire == Wire(b, s, e.pin) != ""
  {
    if labels != [] { EntriesAre(b, s, labels[1..], e); }
  }

  lemma {:induction false} ItemsAre(es: seq<Entry>, pin: string, wire: string)
    ensures Pair(pin, wire) in Items(es) <==> Entry(pin, wire) in es && wire != "pin"
  {
    if es != [] { ItemsAre(es[1..], pin, wire); }
  }

  lemma {:induction false} ClearedWire(b: Board, wires: map<string, string>, labels: seq<string>, k: string)
    ensures
      var c := Cleared(b, wires, labels);
      if exists l :: l in labels && b.key(l) == k then k in c && c[k] == ""
      else (k in c <==> k in wires) && (k in wires ==> c[k] == wires[k])
    decreases labels
  {
    if labels != [] {
      ClearedWire(b, wires[b.key(labels[0]) := ""], labels[1..], k);
    }
  }

  /** After the items are applied, a pin of the board has the wire of its own item, or else the
      one it had. */
  lemma {:induction false} AppliedWire(b: Board, c: map<string, string>, items: seq<Item>, pin: string, wire: string)
    requires pin in b.labels && b.key(pin) in c
    requires forall i | i in items && i.Pair? && b.key(i.pin) == b.key(pin) :: i == Pair(pin, wire)
    ensures
      var w := ApplyAll(b, c, items);
      b.key(pin) in w
      && w[b.key(pin)] == if Pair(pin, wire) in items && Applies(b, Pair(pin, wire)) then wire else c[b.key(pin)]
  {
    if items != [] { AppliedWire(b, c, items[..|items| - 1], pin, wire); }
  }

  lemma {:induction false} ApplySplit(b: Board, c: map<string, string>, x: Item, items: seq<Item>)
    ensures ApplyAll(b, c, [x] + items) == ApplyAll(b, ApplyAll(b, c, [x]), items)
  {
    if items == [] {
      assert [x] + items == [x];
    } else {
      var init, all := items[..|items| - 1], [x] + items;
      ApplySplit(b, c, x, init);
      assert all[..|all| - 1] == [x] + init;
    }
  }

  lemma OwnLabel(b: Board, pin: string)
    requires pin in b.labels
    ensures KnownLabel(b.labels, pin)
  {
    var i :| 0 <= i < |b.labels| && b.labels[i] == pin;
    assert SameLabel(b.labels[i], pin);
  }

  /** The entries that the wire loop reads as they are: all, but for the first one if the loop is
      misled there. */
  function ReadEntries(c: Config): seq<Entry> {
    if ReadsRight(c) then c.entries else c.entries[1..]
  }

  /** A misled loop gives the first entry's wire to the label it takes the key for. */
  predicate StrayHits(b: Board, c: Config, pin: string) {
    && !ReadsRight(c) && c.entries[0].pin != "pin"
    && b.key("pin") == b.key(pin) && Applies(b, Pair("pin", c.entries[0].wire))
  }

  /** The wire of a pin of board b after an import of what board a exports. */
  function Restored(a: Board, sa: Settings, b: Board, pin: string): string {
    var c, wire := Snapshot(a, sa), Wire(a, sa, pin);
    if Entry(pin, wire) in ReadEntries(c) && Carried(b, pin, wire) then wire
    else if StrayHits(b, c, pin) then c.entries[0].wire
    else ""
  }

  /** Importing the exporter's exact text, whatever names it has and whatever board b held before,
      leaves b with the exporter's hostname and board ID.  If the wire loop reads the entries as
      they are, each pin of b has the wire that pin has on a, or none where a has no such pin, no
      wire on it, or a wire that the format does not carry. */
  lemma RoundTrip(a: Board, sa: Settings, b: Board, sb: Settings)
    requires Exportable(a, sa) && TellsApart(b, a.labels, b.labels)
    ensures
      var r := Imported(b, sb, ExportText(Snapshot(a, sa)));
      && Hostname(b, r) == Hostname(a, sa) && r.boardId == sa.boardId
      && (forall pin | pin in b.labels :: Wire(b, r, pin) == Restored(a, sa, b, pin))
      && (ReadsRight(Snapshot(a, sa)) ==> forall pin | pin in b.labels ::
           Restored(a, sa, b, pin) ==
             if pin in a.labels && Carried(b, pin, Wire(a, sa, pin)) then Wire(a, sa, pin) else "")
  {
    hide ExportText, JsonIntAfter, JsonStrAfter, WiresStart, Scan;
    hide ApplyAll, Cleared, EntriesOf, Items, Misread, Restored;
    var c := Snapshot(a, sa);
    VersionFound(c);
    HostnameFound(c);
    BoardIdFound(c);
    ScanExactly(c);
    var cleared := Cleared(b, sb.wires, b.labels);
    forall pin | pin in b.labels
      ensures
        var w := ApplyAll(b, cleared, if Misleads(c) then Misread(c.entries) else Items(c.entries));
        b.key(pin) in w && w[b.key(pin)] == Restored(a, sa, b, pin)
    {
      WireAfter(a, sa, b, cleared, sb.wires, pin);
    }
    if ReadsRight(c) {
      forall pin | pin in b.labels
        ensures Restored(a, sa, b, pin) ==
          if pin in a.labels && Carried(b, pin, Wire(a, sa, pin)) then Wire(a, sa, pin) else ""
      {
        RestoredRight(a, sa, b, pin);
      }
    }
  }

  lemma RestoredRight(a: Board, sa: Settings, b: Board, pin: string)
    requires ReadsRight(Snapshot(a, sa))
    ensures Restored(a, sa, b, pin) ==
      if pin in a.labels && Carried(b, pin, Wire(a, sa, pin)) then Wire(a, sa, pin) else ""
  {
    hide EntriesOf;
    EntriesAre(a, sa, a.labels, Entry(pin, Wire(a, sa, pin)));
  }

  /** What the loop visits: the stray item, if there is one, and the entries it reads. */
  lemma ItemsSeen(c: Config) returns (skips: seq<Item>)
    ensures
      var items := if Misleads(c) then Misread(c.entries) else Items(c.entries);
      if !ReadsRight(c) && c.entries[0].pin != "pin" then
        items == [Pair("pin", c.entries[0].wire)] + Items(ReadEntries(c))
      else items == skips + Items(ReadEntries(c)) && forall x | x in skips :: x == NoWire
  {
    hide Items;
    var es := c.entries;
    skips := [];
    if ReadsRight(c) {
      MisreadDiffers(c);
      assert [] + Items(es) == Items(es);
    } else if es[0].pin == "pin" {
      skips := [NoWire, NoWire];
    }
  }

  lemma WireAfter(
    a: Board, sa: Settings, b: Board, cleared: map<string, string>, wires: map<string, string>, pin: string)
    requires TellsApart(b, a.labels, b.labels) && pin in b.labels
    requires cleared == Cleared(b, wires, b.labels)
    ensures
      var c := Snapshot(a, sa);
      var w := ApplyAll(b, cleared, if Misleads(c) then Misread(c.entries) else Items(c.entries));
      b.key(pin) in w && w[b.key(pin)] == Restored(a, sa, b, pin)
  {
    hide ApplyAll, Cleared, EntriesOf, Items, Misread, ReadsRight, Misleads;
    var c, wire := Snapshot(a, sa), Wire(a, sa, pin);
    var es := ReadEntries(c);
    ClearedWire(b, wires, b.labels, b.key(pin));
    forall i | i in Items(es) && i.Pair? && b.key(i.pin) == b.key(pin) ensures i == Pair(pin, wire) {
      ItemsAre(es, i.pin, i.wire);
      ReadAreEntries(c, Entry(i.pin, i.wire));
      EntriesAre(a, sa, a.labels, Entry(i.pin, i.wire));
    }
    ItemsAre(es, pin, wire);
    OwnLabel(b, pin);
    var skips := ItemsSeen(c);
    if !ReadsRight(c) { HasEntries(c); }
    if !ReadsRight(c) && c.entries[0].pin != "pin" {
      var stray := Pair("pin", c.entries[0].wire);
      ApplySplit(b, cleared, stray, Items(es));
      ApplyOnly(b, cleared, stray);
      AppliedWire(b, ApplyAll(b, cleared, [stray]), Items(es), pin, wire);
    } else {
      var items := skips + Items(es);
      assert forall i | i in items && i.Pair? :: i in Items(es);
      assert Pair(pin, wire) in items <==> Pair(pin, wire) in Items(es);
      AppliedWire(b, cleared, items, pin, wire);
    }
  }

  lemma ReadAreEntries(c: Config, e: Entry)
    requires e in ReadEntries(c)
    ensures e in c.entries
  {}

  lemma ApplyOnly(b: Board, c: map<string, string>, x: Item)
    ensures ApplyAll(b, c, [x]) == if Applies(b, x) then c[b.key(x.pin) := x.wire] else c
  {
    assert [x][..0] == [];
  }

  /** Whether a pin of the exporting board has after the import what it had: no wire, and none that
      goes astray to it; or a wire whose entry is read and which is carried, that is, shorter than
      the label limit, on a pin whose label is, and not called "pin"; or the very wire that goes
      astray to it. */
  predicate Returns(b: Board, s: Settings, pin: string) {
    var c, wire := Snapshot(b, s), Wire(b, s, pin);
    || (wire == "" && !StrayHits(b, c, pin))
    || (Entry(pin, wire) in ReadEntries(c) && Carried(b, pin, wire))
    || (StrayHits(b, c, pin) && c.entries[0].wire == wire)
  }

  /** On the same board the import is a true restore exactly when every pin's wire returns. */
  lemma RestoresExactly(b: Board, s: Settings, before: Settings)
    requires Exportable(b, s) && TellsApart(b, b.labels, b.labels)
    ensures
      var r := Imported(b, before, ExportText(Snapshot(b, s)));
      (forall pin | pin in b.labels :: Wire(b, r, pin) == Wire(b, s, pin))
      <==> (forall pin | pin in b.labels :: Returns(b, s, pin))
  {
    hide Imported, ExportText, Wire, Restored, Returns, Exportable;
    RoundTrip(b, s, b, before);
    forall pin | pin in b.labels ensures Restored(b, s, b, pin) == Wire(b, s, pin) <==> Returns(b, s, pin) {
      RestoredReturns(b, s, pin);
    }
  }

  lemma RestoredReturns(b: Board, s: Settings, pin: string)
    requires pin in b.labels
    ensures Restored(b, s, b, pin) == Wire(b, s, pin) <==> Returns(b, s, pin)
  {
    hide EntriesOf, Wire, ReadsRight, Applies;
    var c, wire := Snapshot(b, s), Wire(b, s, pin);
    if !ReadsRight(c) {
      HasEntries(c);
      EntriesAre(b, s, b.labels, c.entries[0]);
    }
    if Entry(pin, wire) in ReadEntries(c) {
      ReadAreEntries(c, Entry(pin, wire));
      EntriesAre(b, s, b.labels, Entry(pin, wire));
    }
  }

  lemma HasEntries(c: Config)
    requires !ReadsRight(c)
    ensures c.entries != []
  {}

  /** Where the loop is not misled, that comes to every wire in use being carried. */
  lemma ReturnsWhenCarried(b: Board, s: Settings, pin: string)
    requires ReadsRight(Snapshot(b, s)) && pin in b.labels
    ensures Returns(b, s, pin) <==> Wire(b, s, pin) == "" || Carried(b, pin, Wire(b, s, pin))
  {
    hide EntriesOf, Wire, ReadsRight;
    EntriesAre(b, s, b.labels, Entry(pin, Wire(b, s, pin)));
  }

  /** And then exporting again prints the very same text. */
  lemma ReexportIsIdentical(b: Board, s: Settings, before: Settings)
    requires Exportable(b, s) && TellsApart(b, b.labels, b.labels)
    requires forall pin | pin in b.labels :: Returns(b, s, pin)
    ensures
      var text := ExportText(Snapshot(b, s));
      ExportText(Snapshot(b, Imported(b, before, text))) == text
  {
    hide Imported, ExportText, Wire, Exportable, Returns, Restored;
    RoundTrip(b, s, b, before);
    RestoresExactly(b, s, before);
    SameEntries(b, s, Imported(b, before, ExportText(Snapshot(b, s))), b.labels);
  }

  lemma {:induction false} SameEntries(b: Board, s: Settings, t: Settings, labels: seq<string>)
    requires forall pin | pin in labels :: Wire(b, s, pin) == Wire(b, t, pin)
    ensures EntriesOf(b, s, labels) == EntriesOf(b, t, labels)
  {
    hide Wire;
    if labels != [] { SameEntries(b, s, t, labels[1..]); }
  }

  /** A wire called "pin" is lost: the scanner takes its name for the next entry's key. */
  lemma WireCalledPinIsLost(b: Board, s: Settings, before: Settings, pin: string)
    requires Exportable(b, s) && TellsApart(b, b.labels, b.labels) && pin in b.labels && Wire(b, s, pin) == "pin"
    ensures var wire := Wire(b, Imported(b, before, ExportText(Snapshot(b, s))), pin);
      wire != "pin" && (ReadsRight(Snapshot(b, s)) ==> wire == "")
  {
    hide Imported, ExportText, Wire, EntriesOf, Applies;
    RoundTrip(b, s, b, before);
  }

  /** A misled loop loses the first entry's wire: it does not come back to its pin, unless the pin
      is listed twice or is itself where the wire goes astray to. */
  lemma MisledLoses(b: Board, s: Settings, before: Settings)
    requires Exportable(b, s) && TellsApart(b, b.labels, b.labels) && !ReadsRight(Snapshot(b, s))
    ensures Snapshot(b, s).entries != []
    ensures var first := Snapshot(b, s).entries[0];
      first in Snapshot(b, s).entries[1..] || StrayHits(b, Snapshot(b, s), first.pin)
      || Wire(b, Imported(b, before, ExportText(Snapshot(b, s))), first.pin) == "" != Wire(b, s, first.pin)
  {
    hide Imported, ExportText, Wire, EntriesOf, Applies, ReadsRight;
    var c := Snapshot(b, s);
    HasEntries(c);
    EntriesAre(b, s, b.labels, c.entries[0]);
    RoundTrip(b, s, b, before);
  }

  /** What exporter and importer together need for the whole of it. */
  predicate Transferable(a: Board, sa: Settings, b: Board) {
    Exportable(a, sa) && Fits(Snapshot(a, sa)) && TellsApart(b, a.labels, b.labels)
  }

  /** The whole journey: printed in chunks on one board's connection, decoded by the client,
      and posted to another board. */
  method Transfer(src: Bridge, dst: Bridge, s: Stream, headerLen: nat) returns (ok: bool)
    requires s.Valid() && s.content == "" && headerLen == |s.base| && src != dst
    modifies s, s.sock, s.buf, dst
    ensures ok == !s.sock.failed
    ensures ok ==>
      dst.settings == Imported(dst.board, old(dst.settings), Document(Snapshot(src.board, src.settings)))
    ensures ok && Transferable(src.board, src.settings, dst.board) ==>
      && Hostname(dst.board, dst.settings) == Hostname(src.board, src.settings)
      && dst.settings.boardId == src.settings.boardId
      && forall pin | pin in dst.board.labels ::
           Wire(dst.board, dst.settings, pin) == Restored(src.board, src.settings, dst.board, pin)
    ensures !ok ==> dst.settings == old(dst.settings)
  {
    hide Exportable, Imported, ExportText, Decode, Wire, Restored, Fits, ReadsRight, Document, TellsApart;
    src.ExportConfig(s);
    assert s.content == Document(Snapshot(src.board, src.settings));
    s.End();
    ok := s.err == 0;
    if ok {
      var document := Decode(s.sock.sent[headerLen..]).value;
      ghost var before := dst.settings;
      var _, _, _ := dst.ImportConfig(document);
      DocumentExactly(Snapshot(src.board, src.settings));
      if Transferable(src.board, src.settings, dst.board) {
        RoundTrip(src.board, src.settings, dst.board, before);
      }
    }
  }
}
