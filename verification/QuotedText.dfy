/** The C string searches of main/http_server.c, and what they find in a text that is split at
    its quote characters.  A pointer into a NUL-terminated string is an index into `t`, with
    |t| for the terminator; a null pointer is None. */
module QuotedText {
  import opened Wrappers

  /** strstr(t + from, key) */
  function StrStr(t: string, from: nat, key: string): (r: Option<nat>)
    requires from <= |t|
    ensures r.Some? ==> from <= r.value && r.value + |key| <= |t|
    decreases |t| - from
  {
    if from + |key| > |t| then None
    else if t[from..from + |key|] == key then Some(from)
    else if from == |t| then None
    else StrStr(t, from + 1, key)
  }

  /** strchr(t + from, c), for c other than NUL */
  function StrChr(t: string, from: nat, c: char): (r: Option<nat>)
    requires from <= |t|
    ensures r.Some? ==> from <= r.value < |t| && t[r.value] == c
    decreases |t| - from
  {
    if from == |t| then None
    else if t[from] == c then Some(from)
    else StrChr(t, from + 1, c)
  }

  function Quoted(s: string): string {
    "\"" + s + "\""
  }

  predicate QuoteFree(s: string) {
    '"' !in s
  }

  predicate Pieces(segs: seq<string>) {
    segs != [] && forall s | s in segs :: QuoteFree(s)
  }

  /** The text whose pieces between quote characters are these. */
  function Join(segs: seq<string>): string
    requires segs != []
  {
    if |segs| == 1 then segs[0] else segs[0] + "\"" + Join(segs[1..])
  }

  /** From p on, the text is these pieces. */
  ghost predicate At(t: string, p: nat, segs: seq<string>) {
    p <= |t| && Pieces(segs) && t[p..] == Join(segs)
  }

  /** Stepping over a character of the first piece, or over the quote that closes it. */
  lemma Step(t: string, p: nat, segs: seq<string>)
    requires At(t, p, segs) && p < |t|
    ensures segs[0] != "" ==> t[p] == segs[0][0] && At(t, p + 1, [segs[0][1..]] + segs[1..])
    ensures segs[0] == "" ==> t[p] == '"' && |segs| > 1 && At(t, p + 1, segs[1..])
  {
    assert t[p..][1..] == t[p + 1..];
    if segs[0] != "" {
      var next := [segs[0][1..]] + segs[1..];
      assert segs[0] == [segs[0][0]] + segs[0][1..];
      assert next[1..] == segs[1..];
      assert Join(segs) == [segs[0][0]] + Join(next);
      forall s | s in next ensures QuoteFree(s) {
        if s == segs[0][1..] { assert segs[0] in segs; }
      }
    }
  }

  /** Stepping over the whole first piece, up to the quote that closes it. */
  lemma {:induction false} Skip(t: string, p: nat, segs: seq<string>)
    requires At(t, p, segs)
    ensures At(t, p + |segs[0]|, [""] + segs[1..])
    ensures |segs| > 1 ==> p + |segs[0]| + 1 <= |t| && At(t, p + |segs[0]| + 1, segs[1..])
    ensures t[p..p + |segs[0]|] == segs[0]
  {
    assert t[p..][|segs[0]|..] == t[p + |segs[0]|..];
    assert ([""] + segs[1..])[1..] == segs[1..];
    assert t[p..][..|segs[0]|] == t[p..p + |segs[0]|];
    if |segs| > 1 {
      assert t[p..][|segs[0]| + 1..] == t[p + |segs[0]| + 1..];
    }
  }

  /** The first piece after the first that equals K and is closed by a quote, or |segs|. */
  function NextKey(segs: seq<string>, key: string): (j: nat)
    requires segs != []
    ensures 1 <= j < |segs| - 1 || j == |segs|
    ensures j < |segs| ==> segs[j] == key
    ensures forall k | 1 <= k < j && k < |segs| - 1 :: segs[k] != key
  {
    if |segs| <= 2 then |segs|
    else if segs[1] == key then 1
    else 1 + NextKey(segs[1..], key)
  }

  /** At the quote before a piece, the text goes on with "K" exactly when that piece is K. */
  lemma KeyHere(t: string, p: nat, segs: seq<string>, key: string)
    requires At(t, p, [""] + segs) && segs != [] && QuoteFree(key)
    ensures
      (p + |Quoted(key)| <= |t| && t[p..p + |Quoted(key)|] == Quoted(key)) <==> (|segs| > 1 && segs[0] == key)
  {
    var rest := Join(segs);
    assert ([""] + segs)[1..] == segs;
    assert t[p..] == "\"" + rest;
    assert QuoteFree(segs[0]) by { assert segs[0] in [""] + segs; }
    if p + |Quoted(key)| <= |t| && t[p..p + |Quoted(key)|] == Quoted(key) {
      assert t[p..p + |Quoted(key)|] == t[p..][..|Quoted(key)|];
      assert rest[..|key|] == key by { assert t[p..][1..|key| + 1] == Quoted(key)[1..|key| + 1]; }
      assert rest[|key|] == '"' by { assert t[p..][|key| + 1] == Quoted(key)[|key| + 1]; }
      assert forall i | 0 <= i < |key| :: rest[i] == rest[..|key|][i] != '"';
      assert |segs| > 1 ==> rest[|segs[0]|] == '"';
      assert segs[0] == key;
    }
    if |segs| > 1 && segs[0] == key {
      assert t[p..] == "\"" + (key + "\"" + Join(segs[1..]));
      assert t[p..][..|Quoted(key)|] == Quoted(key);
    }
  }

  /** strstr for a quoted key stops at the quote before the next piece that equals it. */
  lemma {:induction false} FindKey(t: string, p: nat, segs: seq<string>, key: string)
    requires At(t, p, segs) && QuoteFree(key)
    ensures
      var r, j := StrStr(t, p, Quoted(key)), NextKey(segs, key);
      && (r.Some? <==> j < |segs|)
      && (r.Some? ==> At(t, r.value, [""] + segs[j..]))
    decreases |t| - p
  {
    if p == |t| {
      assert |segs| == 1;
    } else {
      Step(t, p, segs);
      if segs[0] != "" {
        var next := [segs[0][1..]] + segs[1..];
        FindKey(t, p + 1, next, key);
        assert next[1..] == segs[1..];
        var j := NextKey(segs, key);
        assert j == NextKey(next, key);
        if j < |segs| { assert next[j..] == segs[j..]; }
        if p + |Quoted(key)| <= |t| {
          assert QuoteFree(segs[0]) && t[p..p + |Quoted(key)|][0] == segs[0][0];
          assert t[p..p + |Quoted(key)|] != Quoted(key);
        }
      } else {
        assert segs == [""] + segs[1..];
        KeyHere(t, p, segs[1..], key);
        if !(|segs| > 2 && segs[1] == key) {
          FindKey(t, p + 1, segs[1..], key);
          if |segs| > 2 {
            var j := NextKey(segs, key);
            if j < |segs| { assert segs[j..] == segs[1..][j - 1..]; }
          }
        }
      }
    }
  }

  /** strchr(t + p, c) stops in piece m, of which `rest` remains after it. */
  ghost predicate StopsIn(t: string, p: nat, segs: seq<string>, c: char, m: nat, rest: string)
    requires m < |segs|
  {
    && p <= |t| && StrChr(t, p, c).Some? && Suffix(rest, segs[m])
    && At(t, StrChr(t, p, c).value + 1, [rest] + segs[m + 1..])
  }

  /** One character that is not c does not stop it. */
  lemma StopsLater(t: string, p: nat, after: nat, segs: seq<string>, c: char, m: nat, next: seq<string>, n: nat)
    requires p < |t| && t[p] != c && after == p + 1 && m < |segs| && n < |next|
    requires next[n + 1..] == segs[m + 1..] && Suffix(next[n], segs[m])
    requires exists rest :: StopsIn(t, after, next, c, n, rest)
    ensures exists rest :: StopsIn(t, p, segs, c, m, rest)
  {
    hide At;
    var rest :| StopsIn(t, after, next, c, n, rest);
    assert StopsIn(t, p, segs, c, m, rest);
  }

  lemma StopsHere(t: string, p: nat, segs: seq<string>, c: char)
    requires At(t, p, segs) && p < |t| && t[p] == c && segs != [] && segs[0] != "" && segs[0][0] == c
    requires At(t, p + 1, [segs[0][1..]] + segs[1..])
    ensures StopsIn(t, p, segs, c, 0, segs[0][1..])
  {
    hide At;
  }

  lemma StrChrLater(t: string, p: nat, c: char)
    requires p < |t| && t[p] != c
    ensures StrChr(t, p, c) == StrChr(t, p + 1, c)
  {}

  /** strchr for a character other than a quote passes whole pieces that do not have it. */
  lemma {:induction false} FindChar(t: string, p: nat, segs: seq<string>, c: char)
    requires At(t, p, segs) && c != '"'
    ensures
      var m := PieceWith(segs, c);
      if m < |segs| then exists rest :: StopsIn(t, p, segs, c, m, rest) else StrChr(t, p, c) == None
    decreases |t| - p
  {
    var m := PieceWith(segs, c);
    if p == |t| {
      assert |segs| == 1;
    } else {
      Step(t, p, segs);
      hide At, StopsIn, StrChr;
      if segs[0] == "" {
        FindChar(t, p + 1, segs[1..], c);
        StrChrLater(t, p, c);
        if m < |segs| {
          assert segs[1..][m..] == segs[m + 1..];
          StopsLater(t, p, p + 1, segs, c, m, segs[1..], m - 1);
        }
      } else if t[p] != c {
        var next := [segs[0][1..]] + segs[1..];
        SamePiece(segs, c);
        FindChar(t, p + 1, next, c);
        StrChrLater(t, p, c);
        if m < |segs| {
          assert next[m + 1..] == segs[m + 1..];
          StopsLater(t, p, p + 1, segs, c, m, next, m);
        }
      } else {
        StopsHere(t, p, segs, c);
      }
    }
  }

  lemma SamePiece(segs: seq<string>, c: char)
    requires segs != [] && segs[0] != "" && segs[0][0] != c
    ensures PieceWith([segs[0][1..]] + segs[1..], c) == PieceWith(segs, c)
  {
    assert segs[0] == [segs[0][0]] + segs[0][1..];
    assert ([segs[0][1..]] + segs[1..])[1..] == segs[1..];
  }

  predicate Suffix(rest: string, s: string) {
    |rest| <= |s| && rest == s[|s| - |rest|..]
  }

  /** The first piece that contains c, or |segs|. */
  function PieceWith(segs: seq<string>, c: char): (m: nat)
    ensures m <= |segs| && (m < |segs| ==> c in segs[m])
    ensures forall k | 0 <= k < m :: c !in segs[k]
  {
    if segs == [] then 0 else if c in segs[0] then 0 else 1 + PieceWith(segs[1..], c)
  }
}
