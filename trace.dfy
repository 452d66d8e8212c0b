/**
 * `parse_trace_file`: turns the text lines written by the memtrace Pin tool into trace entries.
 * Blank lines and `#` comments are skipped; every other line becomes one entry whose timestamp is
 * the number of lines kept before it. `I Ox<hex>` lines carry an instruction address; any other
 * line is an access record whose `tid=`, `ip=` and `ea=` tokens fill the thread id, the
 * instruction address and the effective address.
 */
module TraceParser {
  import opened Wrappers
  import opened Text

  /** One parsed line: `{timestamp, pc, addr, type, tid}`. */
  datatype Entry = Entry(timestamp: nat, pc: Option<int>, addr: Option<int>, kind: string, tid: Option<int>)

  /** Why parsing stopped, with the position of the offending line among all input lines. */
  datatype ParseError =
    | MissingPc(line: nat)                  // an `I` line without a second token (`IndexError`)
    | BadNumber(line: nat, text: string)    // a token whose number `int()` rejects (`ValueError`)

  /** The fields an access line sets, each `None` until a token sets it. */
  datatype Fields = Fields(tid: Option<int>, pc: Option<int>, addr: Option<int>)

  /** A line the parser skips: nothing but whitespace, or a `#` comment. */
  predicate Ignored(line: string)
    ensures (forall k :: 0 <= k < |line| ==> IsSpace(line[k])) ==> Ignored(line)
    ensures line != [] && line[0] == '#' ==> Ignored(line)
    ensures line != [] && !IsSpace(line[0]) && line[0] != '#' ==> !Ignored(line)
  {
    var s := Strip(line);
    StripSpec(line);
    StripFirst(line);
    s == [] || s[0] == '#'
  }

  /** The effect of one token of an access line; a later token overrides an earlier one. */
  function ApplyToken(f: Fields, p: string): (r: Result<Fields, string>)
    ensures r.Err? ==> '=' in p && r.error == SecondField(p, '=')
    ensures !StartsWith(p, "tid=") && !StartsWith(p, "ip=") && !StartsWith(p, "ea=") ==> r == Ok(f)
  {
    if StartsWith(p, "tid=") then
      StartsWithPrefix(p, "tid=");
      assert p[3] == '=';
      var t := SecondField(p, '=');
      match ParseInt(t, 10)
      case Some(v) => Ok(f.(tid := Some(v)))
      case None => Err(t)
    else if StartsWith(p, "ip=") then
      StartsWithPrefix(p, "ip=");
      assert p[2] == '=';
      var t := SecondField(p, '=');
      match ParseInt(t, 16)
      case Some(v) => Ok(f.(pc := Some(v)))
      case None => Err(t)
    else if StartsWith(p, "ea=") then
      StartsWithPrefix(p, "ea=");
      assert p[2] == '=';
      var t := SecondField(p, '=');
      match ParseInt(t, 16)
      case Some(v) => Ok(f.(addr := Some(v)))
      case None => Err(t)
    else Ok(f)
  }

  /** The fields of an access line's tokens after its first, applied left to right; the first
      unreadable number stops the line. */
  function AccessFields(ps: seq<string>): (r: Result<Fields, string>)
    ensures r.Err? ==> exists k :: 0 <= k < |ps| && '=' in ps[k] && r.error == SecondField(ps[k], '=')
    ensures (forall k :: 0 <= k < |ps| ==> !StartsWith(ps[k], "tid=") && !StartsWith(ps[k], "ip=") && !StartsWith(ps[k], "ea="))
      ==> r == Ok(Fields(None, None, None))
  {
    if ps == [] then Ok(Fields(None, None, None))
    else
      match AccessFields(ps[..|ps| - 1])
      case Err(t) => Err(t)
      case Ok(f) => ApplyToken(f, ps[|ps| - 1])
  }

  /** `parts[1][2:]`: the instruction token without its two-character `Ox` marker. */
  function DropMarker(s: string): (r: string)
    ensures |s| >= 2 ==> s == s[..2] + r
    ensures |s| <= 2 ==> r == []
  {
    if |s| >= 2 then s[2..] else []
  }

  /** The entry for kept line number `no`, the `ts`-th line kept. */
  function LineEntry(line: string, ts: nat, no: nat): (r: Result<Entry, ParseError>)
    requires !Ignored(line)
    ensures r.Ok? ==> r.value.timestamp == ts
    ensures r.Ok? && r.value.kind == "I" ==> r.value.pc.Some? && r.value.addr.None? && r.value.tid.None?
    ensures r.Err? ==> r.error.line == no
  {
    var s := Strip(line);
    StripSpec(line);
    SplitFirst(s);
    var parts := Split(s);
    if parts[0] == "I" then
      if |parts| < 2 then Err(MissingPc(no))
      else
        var t := DropMarker(parts[1]);
        match ParseInt(t, 16)
        case Some(v) => Ok(Entry(ts, Some(v), None, "I", None))
        case None => Err(BadNumber(no, t))
    else
      match AccessFields(parts[1..])
      case Err(t) => Err(BadNumber(no, t))
      case Ok(f) => Ok(Entry(ts, f.pc, f.addr, parts[0], f.tid))
  }

  /** The number of lines of `lines` that are kept. */
  function KeptCount(lines: seq<string>): (c: nat)
    ensures c <= |lines|
  {
    if lines == [] then 0
    else KeptCount(lines[..|lines| - 1]) + if Ignored(lines[|lines| - 1]) then 0 else 1
  }

  /** What parsing `lines` produces: the entries of the kept lines in order, or the error of the
      first kept line that cannot be read. */
  function Parsed(lines: seq<string>): (r: Result<seq<Entry>, ParseError>)
    ensures r.Ok? ==> |r.value| <= |lines|
    ensures r.Err? ==> r.error.line < |lines| && !Ignored(lines[r.error.line])
  {
    if lines == [] then Ok([])
    else
      match Parsed(lines[..|lines| - 1])
      case Err(e) => Err(e)
      case Ok(es) =>
        var line := lines[|lines| - 1];
        if Ignored(line) then Ok(es)
        else
          match LineEntry(line, |es|, |lines| - 1)
          case Err(e) => Err(e)
          case Ok(x) => Ok(es + [x])
  }

  /** Once a prefix of the tokens fails, the whole line fails with the same token. */
  lemma {:induction false} ErrorSticks(ps: seq<string>, j: nat)
    requires j <= |ps| && AccessFields(ps[..j]).Err?
    ensures AccessFields(ps) == AccessFields(ps[..j])
  {
    if j < |ps| {
      assert ps[..|ps| - 1][..j] == ps[..j];
      ErrorSticks(ps[..|ps| - 1], j);
    } else {
      assert ps[..j] == ps;
    }
  }

  /** The parser's loop over the tokens of one access line. */
  method ParseAccessFields(ps: seq<string>) returns (r: Result<Fields, string>)
    ensures r == AccessFields(ps)
  {
    var f := Fields(None, None, None);
    var i := 0;
    while i < |ps|
      invariant 0 <= i <= |ps|
      invariant AccessFields(ps[..i]) == Ok(f)
    {
      var p := ps[i];
      assert ps[..i + 1][..i] == ps[..i];
      if StartsWith(p, "tid=") {
        StartsWithPrefix(p, "tid=");
        assert p[3] == '=';
        var t := SecondField(p, '=');
        var v := ParseInt(t, 10);
        if v.None? { ErrorSticks(ps, i + 1); return Err(t); }
        f := f.(tid := Some(v.value));
      } else if StartsWith(p, "ip=") {
        StartsWithPrefix(p, "ip=");
        assert p[2] == '=';
        var t := SecondField(p, '=');
        var v := ParseInt(t, 16);
        if v.None? { ErrorSticks(ps, i + 1); return Err(t); }
        f := f.(pc := Some(v.value));
      } else if StartsWith(p, "ea=") {
        StartsWithPrefix(p, "ea=");
        assert p[2] == '=';
        var t := SecondField(p, '=');
        var v := ParseInt(t, 16);
        if v.None? { ErrorSticks(ps, i + 1); return Err(t); }
        f := f.(addr := Some(v.value));
      }
      i := i + 1;
    }
    assert ps[..i] == ps;
    r := Ok(f);
  }

  /** Once a prefix of the lines fails, the whole trace fails with the same error. */
  lemma {:induction false} ParsedErrorSticks(lines: seq<string>, j: nat)
    requires j <= |lines| && Parsed(lines[..j]).Err?
    ensures Parsed(lines) == Parsed(lines[..j])
  {
    if j < |lines| {
      assert lines[..|lines| - 1][..j] == lines[..j];
      ParsedErrorSticks(lines[..|lines| - 1], j);
    } else {
      assert lines[..j] == lines;
    }
  }

  /** The body of the parser's loop for one kept line. */
  method ParseLine(raw: string, timestamp: nat, i: nat) returns (r: Result<Entry, ParseError>)
    requires !Ignored(raw)
    ensures r == LineEntry(raw, timestamp, i)
  {
    var line := Strip(raw);
    StripSpec(raw);
    SplitFirst(line);
    var parts := Split(line);
    if parts[0] == "I" {
      if |parts| < 2 {
        return Err(MissingPc(i));
      }
      var t := DropMarker(parts[1]);
      var pc := ParseInt(t, 16);
      if pc.None? {
        return Err(BadNumber(i, t));
      }
      r := Ok(Entry(timestamp, pc, None, "I", None));
    } else {
      var f := ParseAccessFields(parts[1..]);
      if f.Err? {
        return Err(BadNumber(i, f.error));
      }
      r := Ok(Entry(timestamp, f.value.pc, f.value.addr, parts[0], f.value.tid));
    }
  }

  /** `parse_trace_file`: strips each line, skips blank and `#` lines, and appends one entry per
      remaining line with a running timestamp. */
  method ParseTraceFile(lines: seq<string>) returns (r: Result<seq<Entry>, ParseError>)
    ensures r == Parsed(lines)
  {
    var entries: seq<Entry> := [];
    var timestamp: nat := 0;
    var i := 0;
    while i < |lines|
      invariant 0 <= i <= |lines|
      invariant Parsed(lines[..i]) == Ok(entries)
      invariant timestamp == |entries|
    {
      assert lines[..i + 1][..i] == lines[..i];
      var line := Strip(lines[i]);
      if line == [] || line[0] == '#' {
        i := i + 1;
        continue;
      }
      var x := ParseLine(lines[i], timestamp, i);
      if x.Err? {
        ParsedErrorSticks(lines, i + 1);
        return Err(x.error);
      }
      entries := entries + [x.value];
      timestamp := timestamp + 1;
      i := i + 1;
    }
    assert lines[..i] == lines;
    r := Ok(entries);
  }

  /** A successful parse has one entry per kept line, and the timestamps are `0, 1, 2, ...`. */
  lemma {:induction false} ParsedTimestamps(lines: seq<string>)
    requires Parsed(lines).Ok?
    ensures |Parsed(lines).value| == KeptCount(lines)
    ensures forall k :: 0 <= k < |Parsed(lines).value| ==> Parsed(lines).value[k].timestamp == k
  {
    if lines != [] {
      ParsedTimestamps(lines[..|lines| - 1]);
    }
  }

  /** The entries parsed from a prefix of the lines begin the entries of the whole trace. */
  lemma {:induction false} ParsedPrefix(lines: seq<string>, j: nat)
    requires j <= |lines| && Parsed(lines).Ok?
    ensures Parsed(lines[..j]).Ok?
    ensures |Parsed(lines[..j]).value| <= |Parsed(lines).value|
    ensures Parsed(lines[..j]).value == Parsed(lines).value[..|Parsed(lines[..j]).value|]
  {
    if j < |lines| {
      var init := lines[..|lines| - 1];
      assert init[..j] == lines[..j];
      ParsedPrefix(init, j);
    } else {
      assert lines[..j] == lines;
    }
  }

  /** The kept line at position `i` is the entry with timestamp "lines kept before it". */
  lemma ParsedEntry(lines: seq<string>, i: nat)
    requires i < |lines| && !Ignored(lines[i]) && Parsed(lines).Ok?
    ensures var ts := KeptCount(lines[..i]);
      && LineEntry(lines[i], ts, i).Ok?
      && ts < |Parsed(lines).value|
      && Parsed(lines).value[ts] == LineEntry(lines[i], ts, i).value
  {
    var pre := lines[..i + 1];
    ParsedPrefix(lines, i + 1);
    assert pre[..i] == lines[..i] && pre[i] == lines[i];
    ParsedLast(pre);
    ParsedTimestamps(lines[..i]);
    var es := Parsed(lines[..i]).value;
    var x := LineEntry(lines[i], |es|, i);
    assert Parsed(pre).value[|es|] == x.value;
  }

  /** A successful parse whose last line is kept ends with that line's entry. */
  lemma ParsedLast(lines: seq<string>)
    requires lines != [] && Parsed(lines).Ok? && !Ignored(lines[|lines| - 1])
    ensures var n := |lines| - 1;
      && Parsed(lines[..n]).Ok?
      && LineEntry(lines[n], |Parsed(lines[..n]).value|, n).Ok?
      && Parsed(lines).value == Parsed(lines[..n]).value + [LineEntry(lines[n], |Parsed(lines[..n]).value|, n).value]
  {
  }

  /** Whether a line can be read does not depend on its timestamp. */
  lemma LineOkAnyTime(line: string, ts: nat, no: nat)
    requires !Ignored(line)
    ensures LineEntry(line, ts, no).Ok? == LineEntry(line, 0, no).Ok?
  {
  }

  /** In a successful parse the kept line at position `i` can be read. */
  lemma ReadableAt(lines: seq<string>, i: nat)
    requires Parsed(lines).Ok? && i < |lines| && !Ignored(lines[i])
    ensures LineEntry(lines[i], 0, i).Ok?
  {
    var pre := lines[..i + 1];
    ParsedPrefix(lines, i + 1);
    assert pre[i] == lines[i];
    ParsedLast(pre);
    LineOkAnyTime(lines[i], |Parsed(pre[..i]).value|, i);
  }

  /** In a successful parse every kept line can be read. */
  lemma ParsedAllReadable(lines: seq<string>)
    requires Parsed(lines).Ok?
    ensures forall i :: 0 <= i < |lines| && !Ignored(lines[i]) ==> LineEntry(lines[i], 0, i).Ok?
  {
    forall i | 0 <= i < |lines| && !Ignored(lines[i]) ensures LineEntry(lines[i], 0, i).Ok? {
      ReadableAt(lines, i);
    }
  }

  /** The trace parses exactly when every kept line can be read. */
  lemma ParsedOkIff(lines: seq<string>)
    ensures Parsed(lines).Ok? <==>
      forall i :: 0 <= i < |lines| && !Ignored(lines[i]) ==> LineEntry(lines[i], 0, i).Ok?
  {
    if Parsed(lines).Ok? {
      ParsedAllReadable(lines);
    } else {
      ParsedFirstError(lines);
      var e := Parsed(lines).error;
      LineOkAnyTime(lines[e.line], |Parsed(lines[..e.line]).value|, e.line);
    }
  }

  /** A failed parse reports the first kept line that cannot be read, with that line's error. */
  lemma {:induction false} ParsedFirstError(lines: seq<string>)
    requires Parsed(lines).Err?
    ensures var e := Parsed(lines).error;
      && e.line < |lines| && !Ignored(lines[e.line])
      && Parsed(lines[..e.line]).Ok?
      && LineEntry(lines[e.line], |Parsed(lines[..e.line]).value|, e.line) == Err(e)
  {
    var n := |lines| - 1;
    var init := lines[..n];
    if Parsed(init).Err? {
      ParsedFirstError(init);
      var e := Parsed(init).error;
      assert init[..e.line] == lines[..e.line];
    } else {
      assert lines[..n] == init;
    }
  }

  /** The tokens of a line written as `words` joined by single spaces and ended by a newline. */
  lemma TokensOf(ws: seq<string>, line: string)
    requires |ws| >= 1 && forall k :: 0 <= k < |ws| ==> ws[k] != [] && NoSpace(ws[k])
    requires ws[0][0] != '#'
    requires line == Join(ws, " ") + "\n"
    ensures !Ignored(line) && Split(Strip(line)) == ws
  {
    var j := Join(ws, " ");
    JoinEnds(ws);
    StripTrimmed(j, "\n");
    SplitJoined(ws, []);
    assert j + [] == j;
  }

  /** A joined line starts with its first word's first character and ends with its last word's
      last character. */
  lemma {:induction false} JoinEnds(ws: seq<string>)
    requires |ws| >= 1 && forall k :: 0 <= k < |ws| ==> ws[k] != []
    ensures var j := Join(ws, " "); j != [] && j[0] == ws[0][0] && j[|j| - 1] == ws[|ws| - 1][|ws[|ws| - 1]| - 1]
  {
    if |ws| > 1 {
      JoinEnds(ws[1..]);
    }
  }

  /** memtrace's instruction record `I Ox<hex pc>` becomes an `I` entry with that pc. */
  lemma InstructionLine(ip: nat, ts: nat, no: nat)
    ensures var line := "I Ox" + Hex(ip) + "\n";
      !Ignored(line) && LineEntry(line, ts, no) == Ok(Entry(ts, Some(ip), None, "I", None))
  {
    var h := Hex(ip);
    var line := "I Ox" + h + "\n";
    DigitsNoSpace(h, 16);
    var w := "Ox" + h;
    GlueNoSpace("Ox", h);
    assert line == Join(["I", w], " ") + "\n";
    TokensOf(["I", w], line);
    assert DropMarker(w) == h;
    ParseHex(ip);
  }

  /** Gluing whitespace-free pieces gives a whitespace-free token. */
  lemma GlueNoSpace(a: string, b: string)
    requires NoSpace(a) && NoSpace(b)
    ensures NoSpace(a + b)
  {
    assert forall k :: |a| <= k < |a + b| ==> (a + b)[k] == b[k - |a|];
  }

  /** A line of tokens `ws` whose first token is not `I` is an access record with the fields of
      the remaining tokens. */
  lemma AccessRecord(ws: seq<string>, line: string, f: Fields, ts: nat, no: nat)
    requires |ws| >= 1 && forall k :: 0 <= k < |ws| ==> ws[k] != [] && NoSpace(ws[k])
    requires ws[0][0] != '#' && ws[0] != "I"
    requires line == Join(ws, " ") + "\n"
    requires AccessFields(ws[1..]) == Ok(f)
    ensures !Ignored(line) && LineEntry(line, ts, no) == Ok(Entry(ts, f.pc, f.addr, ws[0], f.tid))
  {
    TokensOf(ws, line);
  }

  /** Reading one more token. */
  lemma AccessFieldsStep(ps: seq<string>, i: nat, f: Fields)
    requires i < |ps| && AccessFields(ps[..i]) == Ok(f)
    ensures AccessFields(ps[..i + 1]) == ApplyToken(f, ps[i])
  {
    assert ps[..i + 1][..i] == ps[..i];
  }

  /** `tid=<v>` sets the thread id when `v` reads as a decimal number. */
  lemma ApplyTid(f: Fields, v: string, n: int)
    requires '=' !in v && ParseInt(v, 10) == Some(n)
    ensures ApplyToken(f, "tid" + "=" + v) == Ok(f.(tid := Some(n)))
  {
    SecondFieldOf("tid", v);
    KeyOf("tid", v);
  }

  /** `ip=<v>` sets the pc when `v` reads as a hexadecimal number. */
  lemma ApplyIp(f: Fields, v: string, n: int)
    requires '=' !in v && ParseInt(v, 16) == Some(n)
    ensures ApplyToken(f, "ip" + "=" + v) == Ok(f.(pc := Some(n)))
  {
    SecondFieldOf("ip", v);
    KeyOf("ip", v);
  }

  /** `ea=<v>` sets the address when `v` reads as a hexadecimal number. */
  lemma ApplyEa(f: Fields, v: string, n: int)
    requires '=' !in v && ParseInt(v, 16) == Some(n)
    ensures ApplyToken(f, "ea" + "=" + v) == Ok(f.(addr := Some(n)))
  {
    SecondFieldOf("ea", v);
    KeyOf("ea", v);
  }

  /** Which of the three prefixes a `key=value` token has. */
  lemma KeyOf(key: string, v: string)
    requires key == "tid" || key == "ip" || key == "ea"
    ensures var t := key + "=" + v;
      && (StartsWith(t, "tid=") <==> key == "tid")
      && (StartsWith(t, "ip=") <==> key == "ip")
      && (StartsWith(t, "ea=") <==> key == "ea")
  {
    var t := key + "=" + v;
    StartsWithPrefix(t, "tid=");
    StartsWithPrefix(t, "ip=");
    StartsWithPrefix(t, "ea=");
    assert t[..|key| + 1] == key + "=";
    assert t[0] == key[0];
  }

  /** The three fields memtrace writes after the access type, read left to right. */
  lemma AccessTokens(tid: nat, ip: nat, ea: nat)
    ensures var ps := ["tid" + "=" + Decimal(tid), "ip" + "=" + ("0x" + Hex(ip)), "ea" + "=" + ("0x" + Hex(ea))];
      AccessFields(ps) == Ok(Fields(Some(tid), Some(ip), Some(ea)))
  {
    var d, h1, h2 := Decimal(tid), Hex(ip), Hex(ea);
    var t1, t2, t3 := "tid" + "=" + d, "ip" + "=" + ("0x" + h1), "ea" + "=" + ("0x" + h2);
    ParseDecimal(tid);
    Parse0xHex(ip);
    Parse0xHex(ea);
    DigitsNoEquals(h1, 16);
    DigitsNoEquals(h2, 16);
    DigitsNoEquals(d, 10);
    var f0 := Fields(None, None, None);
    ApplyTid(f0, d, tid);
    var f1 := f0.(tid := Some(tid));
    ApplyIp(f1, "0x" + h1, ip);
    var f2 := f1.(pc := Some(ip));
    ApplyEa(f2, "0x" + h2, ea);
    AccessFieldsThree(t1, t2, t3);
  }

  /** The fields of three tokens, read left to right. */
  lemma AccessFieldsThree(a: string, b: string, c: string)
    ensures AccessFields([a, b, c]) ==
      match ApplyToken(Fields(None, None, None), a)
      case Err(t) => Err(t)
      case Ok(f1) =>
        match ApplyToken(f1, b)
        case Err(t) => Err(t)
        case Ok(f2) => ApplyToken(f2, c)
  {
    assert [a][..0] == [];
    assert AccessFields([a]) == ApplyToken(Fields(None, None, None), a);
    assert [a, b][..1] == [a];
    assert AccessFields([a, b]) == match AccessFields([a]) case Err(t) => Err(t) case Ok(f1) => ApplyToken(f1, b);
    assert [a, b, c][..2] == [a, b];
  }

  /** The access record's text is its four tokens joined by spaces. */
  lemma AccessText(kind: string, d: string, h1: string, h2: string)
    ensures kind + " tid=" + d + " ip=0x" + h1 + " ea=0x" + h2 + "\n"
      == Join([kind, "tid" + "=" + d, "ip" + "=" + ("0x" + h1), "ea" + "=" + ("0x" + h2)], " ") + "\n"
  {
    var t1, t2, t3 := "tid" + "=" + d, "ip" + "=" + ("0x" + h1), "ea" + "=" + ("0x" + h2);
    JoinFour(kind, t1, t2, t3);
    assert " tid=" == " " + "tid" + "=";
    assert " ip=0x" == " " + "ip" + "=" + "0x";
    assert " ea=0x" == " " + "ea" + "=" + "0x";
    AccessConcat(kind, d, h1, h2);
  }

  /** Regrouping the pieces of an access record. */
  lemma AccessConcat(kind: string, d: string, h1: string, h2: string)
    ensures kind + (" " + "tid" + "=") + d + (" " + "ip" + "=" + "0x") + h1 + (" " + "ea" + "=" + "0x") + h2
      == kind + " " + ("tid" + "=" + d) + " " + ("ip" + "=" + ("0x" + h1)) + " " + ("ea" + "=" + ("0x" + h2))
  {
  }

  /** Four words joined by spaces. */
  lemma JoinFour(a: string, b: string, c: string, d: string)
    ensures Join([a, b, c, d], " ") == a + " " + b + " " + c + " " + d
  {
    JoinCons(c, [d], " ");
    assert [c] + [d] == [c, d];
    JoinCons(b, [c, d], " ");
    assert [b] + [c, d] == [b, c, d];
    JoinCons(a, [b, c, d], " ");
    assert [a] + [b, c, d] == [a, b, c, d];
    ConcatAssoc(a + " " + b, " ", c, " " + d);
  }

  /** Five words joined by spaces. */
  lemma JoinFive(a: string, b: string, c: string, d: string, e: string)
    ensures Join([a, b, c, d, e], " ") == a + " " + b + " " + c + " " + d + " " + e
  {
    JoinFour(b, c, d, e);
    JoinCons(a, [b, c, d, e], " ");
    assert [a] + [b, c, d, e] == [a, b, c, d, e];
    FiveAssoc(a, b, c, d, e);
  }

  lemma FiveAssoc(a: string, b: string, c: string, d: string, e: string)
    ensures a + " " + (b + " " + c + " " + d + " " + e) == a + " " + b + " " + c + " " + d + " " + e
  {
  }

  /** Joining a word onto more words puts one separator between them. */
  lemma JoinCons(w: string, ws: seq<string>, sep: string)
    requires ws != []
    ensures Join([w] + ws, sep) == w + sep + Join(ws, sep)
  {
    assert ([w] + ws)[1..] == ws;
  }

  /** memtrace's access records `R`/`R2`/`W tid=<dec> ip=0x<hex> ea=0x<hex>` become entries of that
      type carrying the thread id, the pc and the effective address. */
  lemma AccessLine(kind: string, tid: nat, ip: nat, ea: nat, ts: nat, no: nat)
    requires kind == "R" || kind == "R2" || kind == "W"
    ensures var line := kind + " tid=" + Decimal(tid) + " ip=0x" + Hex(ip) + " ea=0x" + Hex(ea) + "\n";
      !Ignored(line) && LineEntry(line, ts, no) == Ok(Entry(ts, Some(ip), Some(ea), kind, Some(tid)))
  {
    var d, h1, h2 := Decimal(tid), Hex(ip), Hex(ea);
    var t1, t2, t3 := "tid" + "=" + d, "ip" + "=" + ("0x" + h1), "ea" + "=" + ("0x" + h2);
    DigitsNoSpace(d, 10);
    DigitsNoSpace(h1, 16);
    DigitsNoSpace(h2, 16);
    GlueNoSpace("tid" + "=", d);
    GlueNoSpace("0x", h1);
    GlueNoSpace("ip" + "=", "0x" + h1);
    GlueNoSpace("0x", h2);
    GlueNoSpace("ea" + "=", "0x" + h2);
    AccessTokens(tid, ip, ea);
    var ws := [kind, t1, t2, t3];
    var line := kind + " tid=" + d + " ip=0x" + h1 + " ea=0x" + h2 + "\n";
    AccessText(kind, d, h1, h2);
    KindWord(kind);
    WordsFour(kind, t1, t2, t3);
    assert ws[1..] == [t1, t2, t3];
    AccessRecord(ws, line, Fields(Some(tid), Some(ip), Some(ea)), ts, no);
  }

  /** The access types are words that do not start a comment and are not `I`. */
  lemma KindWord(kind: string)
    requires kind == "R" || kind == "R2" || kind == "W"
    ensures kind != [] && NoSpace(kind) && kind[0] != '#' && kind != "I"
  {
  }

  lemma WordsFour(a: string, b: string, c: string, d: string)
    requires a != [] && b != [] && c != [] && d != []
    requires NoSpace(a) && NoSpace(b) && NoSpace(c) && NoSpace(d)
    ensures var ws := [a, b, c, d]; forall k :: 0 <= k < |ws| ==> ws[k] != [] && NoSpace(ws[k])
  {
  }

  /** The banner's text is its five words joined by spaces. */
  lemma BannerText(h: string)
    ensures "Main executable loaded at address:" + h + "\n"
      == Join(["Main", "executable", "loaded", "at", "address:" + h], " ") + "\n"
  {
    JoinFive("Main", "executable", "loaded", "at", "address:" + h);
    BannerPieces();
    ConcatAssoc("Main executable loaded at ", "address:", h, "\n");
    ConcatAssoc("Main" + " " + "executable" + " " + "loaded" + " " + "at", " ", "address:" + h, "\n");
  }

  lemma BannerPieces()
    ensures "Main executable loaded at address:" == "Main executable loaded at " + "address:"
    ensures "Main executable loaded at " == "Main" + " " + "executable" + " " + "loaded" + " " + "at" + " "
  {
  }

  /** memtrace's banner `Main executable loaded at address:<hex>` is kept as an entry of type `Main`
      with no pc, address or thread id, and it takes a timestamp. */
  lemma BannerLine(base: nat, ts: nat, no: nat)
    ensures var line := "Main executable loaded at address:" + Hex(base) + "\n";
      !Ignored(line) && LineEntry(line, ts, no) == Ok(Entry(ts, None, None, "Main", None))
  {
    var h := Hex(base);
    var last := "address:" + h;
    AddressWord(base);
    BannerText(h);
    BannerFields(last);
    BannerWords(last);
    AccessRecord(["Main", "executable", "loaded", "at", last], "Main executable loaded at address:" + h + "\n",
      Fields(None, None, None), ts, no);
  }

  /** The banner's last word `address:<hex>`. */
  lemma AddressWord(base: nat)
    ensures var last := "address:" + Hex(base); last != [] && NoSpace(last) && StartsWith(last, "address:")
  {
    var h := Hex(base);
    var last := "address:" + h;
    DigitsNoSpace(h, 16);
    GlueNoSpace("address:", h);
    StartsWithPrefix(last, "address:");
    assert last[..8] == "address:";
  }

  /** The banner's words are words, the first is `Main`, not `I` and not a comment. */
  lemma BannerWords(last: string)
    requires last != [] && NoSpace(last)
    ensures var ws := ["Main", "executable", "loaded", "at", last];
      && (forall k :: 0 <= k < |ws| ==> ws[k] != [] && NoSpace(ws[k]))
      && ws[0][0] != '#' && ws[0] != "I" && ws[1..] == ["executable", "loaded", "at", last]
  {
    assert NoSpace("executable") && NoSpace("loaded") && NoSpace("at") && NoSpace("Main");
    WordsFour("executable", "loaded", "at", last);
    WordsCons("Main", ["executable", "loaded", "at", last]);
    assert ["Main"] + ["executable", "loaded", "at", last] == ["Main", "executable", "loaded", "at", last];
  }

  lemma WordsCons(w: string, ws: seq<string>)
    requires w != [] && NoSpace(w)
    requires forall k :: 0 <= k < |ws| ==> ws[k] != [] && NoSpace(ws[k])
    ensures var vs := [w] + ws; forall k :: 0 <= k < |vs| ==> vs[k] != [] && NoSpace(vs[k])
  {
    var vs := [w] + ws;
    assert forall k :: 1 <= k < |vs| ==> vs[k] == ws[k - 1];
  }

  /** None of the banner's words after `Main` sets a field. */
  lemma BannerFields(last: string)
    requires StartsWith(last, "address:")
    ensures AccessFields(["executable", "loaded", "at", last]) == Ok(Fields(None, None, None))
  {
    var f := Fields(None, None, None);
    assert ApplyToken(f, "executable") == Ok(f);
    assert ApplyToken(f, "loaded") == Ok(f);
    assert ApplyToken(f, "at") == Ok(f);
    assert ApplyToken(f, last) == Ok(f);
    AccessFieldsThree("executable", "loaded", "at");
    assert ["executable", "loaded", "at", last][..3] == ["executable", "loaded", "at"];
  }

  /** memtrace's closing `# Program finished` line is skipped. */
  lemma FinishLine()
    ensures Ignored("# Program finished\n")
  {
    StripTrimmed("# Program finished", "\n");
  }
}
