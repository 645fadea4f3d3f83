/** The two EID parsers (userspace-nbd/src/ramdisk_ctrl_client.c and ramdisk_urma.c)
    and the printer of userspace-nbd/examples/business_client_example.c. A text is
    the characters before the terminating NUL. */
module Eid {
  import opened Common

  /** Whose separators are skipped: the client's, the daemon's, or either's. */
  datatype Dialect = Client | Daemon | Either

  predicate IsSpace(c: char)
  {
    c == ' ' || '\t' <= c <= '\r'
  }

  predicate Skips(d: Dialect, c: char)
  {
    || c == ':' || c == '-'
    || (c == '.' && !d.Daemon?)
    || (IsSpace(c) && !d.Client?)
  }

  /** hex_value: -1 for what is no digit. */
  function HexValue(c: char): (v: int)
    ensures -1 <= v < 16
  {
    if '0' <= c <= '9' then c as int - '0' as int
    else if 'a' <= c <= 'f' then c as int - 'a' as int + 10
    else if 'A' <= c <= 'F' then c as int - 'A' as int + 10
    else -1
  }

  // ------------------------------------------------------------------- meaning

  /** The values of what is left once the separators are removed. */
  function Nibbles(d: Dialect, text: string): (r: seq<int>)
  {
    if text == [] then []
    else
      var n := |text| - 1;
      Nibbles(d, text[..n]) + if Skips(d, text[n]) then [] else [HexValue(text[n])]
  }

  predicate AllHex(ns: seq<int>)
  {
    forall i :: 0 <= i < |ns| ==> 0 <= ns[i] < 16
  }

  /** The two digits of every byte, high one first. */
  function Halves(eid: seq<Byte>): (ns: seq<int>)
    ensures |ns| == 2 * |eid| && AllHex(ns)
  {
    if eid == [] then []
    else
      var n := |eid| - 1;
      Halves(eid[..n]) + [eid[n] / 16, eid[n] % 16]
  }

  /** The k bytes with these digits. */
  function Pairs(k: nat, ns: seq<int>): (r: seq<Byte>)
    requires AllHex(ns) && |ns| == 2 * k
    ensures |r| == k
  {
    if k == 0 then [] else Pairs(k - 1, ns[..2 * k - 2]) + [16 * ns[2 * k - 2] + ns[2 * k - 1]]
  }

  /** Exactly 32 hexadecimal digits between the separators. */
  predicate Accepts(d: Dialect, text: string)
  {
    |Nibbles(d, text)| == 32 && AllHex(Nibbles(d, text))
  }

  function Parse(d: Dialect, text: string): Option<seq<Byte>>
  {
    if Accepts(d, text) then Some(Pairs(16, Nibbles(d, text))) else None
  }

  lemma ByteHalves(hi: int, lo: int)
    requires 0 <= hi < 16 && 0 <= lo < 16
    ensures (16 * hi + lo) / 16 == hi && (16 * hi + lo) % 16 == lo
  {
  }

  lemma {:induction false} PairsHalves(eid: seq<Byte>)
    ensures Pairs(|eid|, Halves(eid)) == eid
  {
    if eid != [] {
      var n := |eid| - 1;
      PairsHalves(eid[..n]);
      assert Halves(eid)[..2 * n] == Halves(eid[..n]);
    }
  }

  lemma {:induction false} HalvesPairs(k: nat, ns: seq<int>)
    requires AllHex(ns) && |ns| == 2 * k
    ensures Halves(Pairs(k, ns)) == ns
  {
    if k > 0 {
      HalvesPairs(k - 1, ns[..2 * k - 2]);
      assert Pairs(k, ns)[..k - 1] == Pairs(k - 1, ns[..2 * k - 2]);
      ByteHalves(ns[2 * k - 2], ns[2 * k - 1]);
    }
  }

  /** The EID whose digits the text spells is what parsing gives. */
  lemma Spelled(d: Dialect, text: string, eid: seq<Byte>)
    requires |eid| == 16 && Nibbles(d, text) == Halves(eid)
    ensures Accepts(d, text) && Parse(d, text) == Some(eid)
  {
    PairsHalves(eid);
  }

  lemma {:induction false} NibblesCat(d: Dialect, a: string, b: string)
    ensures Nibbles(d, a + b) == Nibbles(d, a) + Nibbles(d, b)
  {
    if b == [] {
      assert a + b == a;
    } else {
      var n := |b| - 1;
      assert (a + b)[..|a| + n] == a + b[..n];
      NibblesCat(d, a, b[..n]);
    }
  }

  /** The character at i, seen from the whole text. */
  lemma NibbleAt(d: Dialect, text: string, i: nat)
    requires i < |text|
    ensures Nibbles(d, text[..i + 1]) ==
            Nibbles(d, text[..i]) + if Skips(d, text[i]) then [] else [HexValue(text[i])]
    ensures Nibbles(d, text[..i + 1]) <= Nibbles(d, text)
  {
    assert text[..i + 1][..i] == text[..i];
    assert text == text[..i + 1] + text[i + 1..];
    NibblesCat(d, text[..i + 1], text[i + 1..]);
  }

  // ---------------------------------------------------------------------- code

  /** After i characters: the bytes so far, and an odd digit kept aside in `high`. */
  ghost predicate Scanned(d: Dialect, text: string, i: nat, bytes: seq<Byte>, high: int)
  {
    && i <= |text| && -1 <= high < 16
    && Nibbles(d, text[..i]) == Halves(bytes) + if high < 0 then [] else [high]
  }

  lemma ScanSkip(d: Dialect, text: string, i: nat, bytes: seq<Byte>, high: int)
    requires Scanned(d, text, i, bytes, high) && i < |text| && Skips(d, text[i])
    ensures Scanned(d, text, i + 1, bytes, high)
  {
    NibbleAt(d, text, i);
  }

  lemma ScanDigit(d: Dialect, text: string, i: nat, bytes: seq<Byte>, high: int)
    requires Scanned(d, text, i, bytes, high) && i < |text| && !Skips(d, text[i]) && HexValue(text[i]) >= 0
    ensures high < 0 ==> Scanned(d, text, i + 1, bytes, HexValue(text[i]))
    ensures high >= 0 ==> Scanned(d, text, i + 1, bytes + [16 * high + HexValue(text[i])], -1)
  {
    NibbleAt(d, text, i);
    if high >= 0 {
      HalvesGrow(bytes, high, HexValue(text[i]));
    }
  }

  lemma HalvesGrow(bytes: seq<Byte>, hi: int, lo: int)
    requires 0 <= hi < 16 && 0 <= lo < 16
    ensures Halves(bytes + [16 * hi + lo]) == Halves(bytes) + [hi] + [lo]
  {
    ByteHalves(hi, lo);
    var longer: seq<Byte> := bytes + [16 * hi + lo];
    assert longer[..|bytes|] == bytes;
  }

  lemma ScanRefuse(d: Dialect, text: string, i: nat, bytes: seq<Byte>, high: int)
    requires Scanned(d, text, i, bytes, high) && i < |text| && !Skips(d, text[i])
    requires HexValue(text[i]) < 0 || |bytes| >= 16
    ensures !Accepts(d, text)
  {
    NibbleAt(d, text, i);
    assert Nibbles(d, text)[|Nibbles(d, text[..i])|] == HexValue(text[i]);
  }

  /** At the end of the text the bytes are it, or the text is refused. */
  lemma ScanEnd(d: Dialect, text: string, bytes: seq<Byte>, high: int)
    requires Scanned(d, text, |text|, bytes, high)
    ensures Accepts(d, text) <==> high < 0 && |bytes| == 16
    ensures Accepts(d, text) ==> Parse(d, text) == Some(bytes)
  {
    assert text[..|text|] == text;
    if high < 0 && |bytes| == 16 {
      Spelled(d, text, bytes);
    }
  }

  method Clear(eid: array<Byte>)
    modifies eid
    ensures eid[..] == Zeros(eid.Length)
  {
    for k := 0 to eid.Length
      invariant forall i :: 0 <= i < k ==> eid[i] == 0
    {
      eid[k] := 0;
    }
  }

  /** ramdisk_ctrl_parse_eid. */
  method ClientParse(text: string, eid: array<Byte>) returns (rc: int)
    requires eid.Length == 16
    modifies eid
    ensures rc == if Accepts(Client, text) then 0 else -EINVAL
    ensures rc == 0 ==> Parse(Client, text) == Some(eid[..])
  {
    Clear(eid);
    var i, high, out := 0, -1, 0;
    while i < |text|
      invariant out <= 16 && Scanned(Client, text, i, eid[..out], high)
    {
      if text[i] == ':' || text[i] == '-' || text[i] == '.' {
        ScanSkip(Client, text, i, eid[..out], high);
        i := i + 1;
        continue;
      }
      var v := HexValue(text[i]);
      if v < 0 {
        ScanRefuse(Client, text, i, eid[..out], high);
        return -EINVAL;
      }
      if high < 0 {
        ScanDigit(Client, text, i, eid[..out], high);
        high := v;
      } else {
        if out >= 16 {
          ScanRefuse(Client, text, i, eid[..out], high);
          return -EINVAL;
        }
        ScanDigit(Client, text, i, eid[..out], high);
        ghost var before := eid[..out];
        eid[out] := 16 * high + v;
        out := out + 1;
        assert eid[..out] == before + [16 * high + v];
        high := -1;
      }
      i := i + 1;
    }
    ScanEnd(Client, text, eid[..out], high);
    assert out == 16 ==> eid[..out] == eid[..];
    rc := if high == -1 && out == 16 then 0 else -EINVAL;
  }

  /** parse_eid_text: collects in a local buffer, so a refused text leaves the EID
      as it was. */
  method DaemonParse(text: string, eid: array<Byte>) returns (rc: int)
    requires eid.Length == 16
    modifies eid
    ensures rc == if Accepts(Daemon, text) then 0 else -EINVAL
    ensures rc == 0 ==> Parse(Daemon, text) == Some(eid[..])
    ensures rc != 0 ==> eid[..] == old(eid[..])
  {
    var raw := new Byte[16](_ => 0);
    var ok := DaemonScan(text, raw);
    if !ok {
      return -EINVAL;
    }
    for k := 0 to 16
      invariant eid[..k] == raw[..k]
      invariant Parse(Daemon, text) == Some(raw[..])
    {
      eid[k] := raw[k];
    }
    assert eid[..] == eid[..16] == raw[..16] == raw[..];
    rc := 0;
  }

  /** Its loop, which counts digits instead of bytes. */
  method DaemonScan(text: string, raw: array<Byte>) returns (ok: bool)
    requires raw.Length == 16
    modifies raw
    ensures ok == Accepts(Daemon, text)
    ensures ok ==> Parse(Daemon, text) == Some(raw[..])
  {
    var i, nibbles, high := 0, 0, -1;
    ghost var out := 0;
    while i < |text|
      invariant out <= 16 && nibbles == 2 * out + if high < 0 then 0 else 1
      invariant Scanned(Daemon, text, i, raw[..out], high)
    {
      if text[i] == ':' || text[i] == '-' || IsSpace(text[i]) {
        ScanSkip(Daemon, text, i, raw[..out], high);
        i := i + 1;
        continue;
      }
      var v := HexValue(text[i]);
      if v < 0 || nibbles >= 32 {
        ScanRefuse(Daemon, text, i, raw[..out], high);
        return false;
      }
      ScanDigit(Daemon, text, i, raw[..out], high);
      if high < 0 {
        high := v;
      } else {
        ghost var before := raw[..out];
        raw[nibbles / 2] := 16 * high + v;
        out := out + 1;
        assert raw[..out] == before + [16 * high + v];
        high := -1;
      }
      nibbles := nibbles + 1;
      i := i + 1;
    }
    ScanEnd(Daemon, text, raw[..out], high);
    assert out == 16 ==> raw[..out] == raw[..];
    ok := nibbles == 32 && high < 0;
  }

  const HEX: string := "0123456789abcdef"

  function Printed(eid: seq<Byte>): (r: string)
    ensures |r| == 2 * |eid|
  {
    if eid == [] then []
    else
      var n := |eid| - 1;
      Printed(eid[..n]) + [HEX[eid[n] / 16], HEX[eid[n] % 16]]
  }

  /** format_eid. */
  method FormatEid(eid: array<Byte>, out: array<char>)
    requires eid.Length == 16 && out.Length == 33
    modifies out
    ensures out[..32] == Printed(eid[..]) && out[32] == '\0'
  {
    for i := 0 to 16
      invariant out[..2 * i] == Printed(eid[..i])
    {
      out[2 * i] := HEX[eid[i] / 16];
      out[2 * i + 1] := HEX[eid[i] % 16];
      assert eid[..i + 1][..i] == eid[..i];
    }
    out[32] := '\0';
    assert eid[..16] == eid[..];
  }

  // ------------------------------------------------------------------ theorems

  lemma DigitOf(v: nat)
    requires v < 16
    ensures HexValue(HEX[v]) == v && HEX[v] != '\0'
    ensures !Skips(Client, HEX[v]) && !Skips(Daemon, HEX[v]) && !Skips(Either, HEX[v])
  {
  }

  lemma {:induction false} NibblesPrinted(d: Dialect, eid: seq<Byte>)
    ensures Nibbles(d, Printed(eid)) == Halves(eid)
    ensures '\0' !in Printed(eid)
  {
    if eid != [] {
      var n := |eid| - 1;
      NibblesPrinted(d, eid[..n]);
      TwoDigits(d, Printed(eid[..n]), eid[n] / 16, eid[n] % 16);
      DigitOf(eid[n] / 16);
      DigitOf(eid[n] % 16);
    }
  }

  lemma TwoDigits(d: Dialect, text: string, hi: nat, lo: nat)
    requires hi < 16 && lo < 16
    ensures Nibbles(d, text + [HEX[hi], HEX[lo]]) == Nibbles(d, text) + [hi, lo]
  {
    DigitOf(hi);
    DigitOf(lo);
    var t := text + [HEX[hi], HEX[lo]];
    assert t[..|text| + 1] == text + [HEX[hi]];
    assert (text + [HEX[hi]])[..|text|] == text;
  }

  /** Either parser gives a printed EID back, and the text has no NUL in it. */
  lemma ParsePrinted(d: Dialect, eid: seq<Byte>)
    requires |eid| == 16
    ensures Parse(d, Printed(eid)) == Some(eid)
    ensures '\0' !in Printed(eid)
  {
    NibblesPrinted(d, eid);
    Spelled(d, Printed(eid), eid);
  }

  function Lower(c: char): char
  {
    if 'A' <= c <= 'F' then c + ('a' - 'A') else c
  }

  /** The text without its separators, in lower case. */
  function Canonical(d: Dialect, text: string): string
  {
    if text == [] then []
    else
      var n := |text| - 1;
      Canonical(d, text[..n]) + if Skips(d, text[n]) then [] else [Lower(text[n])]
  }

  function Digits(ns: seq<int>): (r: string)
    requires AllHex(ns)
    ensures |r| == |ns|
  {
    if ns == [] then [] else Digits(ns[..|ns| - 1]) + [HEX[ns[|ns| - 1]]]
  }

  lemma DigitPrinted(c: char)
    requires HexValue(c) >= 0
    ensures HEX[HexValue(c)] == Lower(c)
  {
  }

  lemma {:induction false} DigitsCanonical(d: Dialect, text: string)
    requires AllHex(Nibbles(d, text))
    ensures Digits(Nibbles(d, text)) == Canonical(d, text)
  {
    if text != [] {
      var n := |text| - 1;
      var ns, all := Nibbles(d, text[..n]), Nibbles(d, text);
      assert ns == all[..|ns|];
      DigitsCanonical(d, text[..n]);
      if Skips(d, text[n]) {
        assert all == ns;
      } else {
        assert all == ns + [HexValue(text[n])] && all[|ns|] == HexValue(text[n]);
        DigitPrinted(text[n]);
      }
    }
  }

  lemma {:induction false} PrintedDigits(eid: seq<Byte>)
    ensures Printed(eid) == Digits(Halves(eid))
  {
    if eid != [] {
      var n := |eid| - 1;
      PrintedDigits(eid[..n]);
      DigitsTwo(Halves(eid[..n]), eid[n] / 16, eid[n] % 16);
    }
  }

  lemma DigitsTwo(ns: seq<int>, hi: int, lo: int)
    requires AllHex(ns) && 0 <= hi < 16 && 0 <= lo < 16
    ensures Digits(ns + [hi, lo]) == Digits(ns) + [HEX[hi], HEX[lo]]
  {
    assert (ns + [hi, lo])[..|ns| + 1] == ns + [hi];
    assert (ns + [hi])[..|ns|] == ns;
  }

  /** Printing what was parsed gives the text's own digits, in lower case. */
  lemma PrintParsed(d: Dialect, text: string)
    requires Accepts(d, text)
    ensures Parse(d, text).Some? && Printed(Parse(d, text).value) == Canonical(d, text)
  {
    HalvesPairs(16, Nibbles(d, text));
    PrintedDigits(Pairs(16, Nibbles(d, text)));
    DigitsCanonical(d, text);
  }

  // ----------------------------------------------------- do the parsers agree?

  /** A separator of the other dialect. */
  predicate Foreign(d: Dialect, c: char)
  {
    Skips(Either, c) && !Skips(d, c)
  }

  /** Without foreign separators a dialect reads like the union of both. */
  lemma {:induction false} NothingForeign(d: Dialect, text: string)
    requires forall i :: 0 <= i < |text| ==> !Foreign(d, text[i])
    ensures Nibbles(d, text) == Nibbles(Either, text)
  {
    if text != [] {
      var n := |text| - 1;
      assert forall i :: 0 <= i < n ==> text[..n][i] == text[i];
      NothingForeign(d, text[..n]);
    }
  }

  /** One foreign separator, and the dialect refuses. */
  lemma ForeignRefused(d: Dialect, text: string, i: nat)
    requires i < |text| && Foreign(d, text[i])
    ensures !Accepts(d, text)
  {
    NibbleAt(d, text, i);
    assert Nibbles(d, text)[|Nibbles(d, text[..i])|] == HexValue(text[i]);
  }

  predicate HasDot(text: string)
  {
    exists i :: 0 <= i < |text| && text[i] == '.'
  }

  predicate HasSpace(text: string)
  {
    exists i :: 0 <= i < |text| && IsSpace(text[i])
  }

  lemma ClientReads(text: string)
    ensures Parse(Client, text) == if HasSpace(text) then None else Parse(Either, text)
  {
    if HasSpace(text) {
      var i :| 0 <= i < |text| && IsSpace(text[i]);
      ForeignRefused(Client, text, i);
    } else {
      NothingForeign(Client, text);
    }
  }

  lemma DaemonReads(text: string)
    ensures Parse(Daemon, text) == if HasDot(text) then None else Parse(Either, text)
  {
    if HasDot(text) {
      var i :| 0 <= i < |text| && text[i] == '.';
      ForeignRefused(Daemon, text, i);
    } else {
      NothingForeign(Daemon, text);
    }
  }

  /** The parsers disagree exactly on the texts that are 32 digits once dots and white
      space are gone as well and that hold one of these two but not the other. */
  lemma ParsersAgreeIff(text: string)
    ensures Parse(Client, text) == Parse(Daemon, text) <==>
              (Accepts(Either, text) ==> (HasDot(text) <==> HasSpace(text)))
  {
    ClientReads(text);
    DaemonReads(text);
  }

  /** Such texts exist: a printed EID with a dot after it. */
  lemma ParsersDisagree(eid: seq<Byte>)
    requires |eid| == 16
    ensures Parse(Client, Printed(eid) + ".") == Some(eid) && Parse(Daemon, Printed(eid) + ".") == None
  {
    var text := Printed(eid) + ".";
    assert text[..|text| - 1] == Printed(eid);
    NibblesPrinted(Client, eid);
    Spelled(Client, text, eid);
    ForeignRefused(Daemon, text, |text| - 1);
  }

  // ---------------------------------------------------- the parsers, letter by letter

  const HEX_UPPER: string := "0123456789ABCDEF"
  const SPACES: string := " \t\n\U{0B}\U{0C}\r"

  /** The separators of a dialect. */
  function Separators(d: Dialect): string
  {
    match d
    case Client => ":-."
    case Daemon => ":-" + SPACES
    case Either => ":-." + SPACES
  }

  /** The text without these characters. */
  function Without(text: string, chars: string): string
  {
    if text == [] then []
    else
      var n := |text| - 1;
      Without(text[..n], chars) + if text[n] in chars then [] else [text[n]]
  }

  lemma SpaceIs(c: char)
    ensures IsSpace(c) <==> c in SPACES
  {
    assert SPACES[0] == ' ' && SPACES[1] == '\t' && SPACES[2] == '\n' && SPACES[5] == '\r';
    assert SPACES[3] == '\U{0B}' && SPACES[4] == '\U{0C}';
  }

  lemma SkipsIs(d: Dialect, c: char)
    ensures Skips(d, c) <==> c in Separators(d)
  {
    SpaceIs(c);
    assert c in ":-." <==> c == ':' || c == '-' || c == '.';
    assert c in ":-" <==> c == ':' || c == '-';
  }

  /** Sixteen values in both cases. */
  lemma DigitValues(v: nat)
    requires v < 16
    ensures HexValue(HEX[v]) == v && HexValue(HEX_UPPER[v]) == v
  {
  }

  /** And no other character is a digit. */
  lemma IsDigit(c: char)
    ensures HexValue(c) >= 0 <==> c in HEX || c in HEX_UPPER
  {
    if HexValue(c) >= 0 {
      DigitFound(c);
    } else {
      if c in HEX {
        var v :| 0 <= v < 16 && HEX[v] == c;
        DigitValues(v);
        assert false;
      }
      if c in HEX_UPPER {
        var v :| 0 <= v < 16 && HEX_UPPER[v] == c;
        DigitValues(v);
        assert false;
      }
    }
  }

  lemma DigitFound(c: char)
    requires HexValue(c) >= 0
    ensures c in HEX || c in HEX_UPPER
  {
    if '0' <= c <= '9' || 'a' <= c <= 'f' {
      assert HEX[HexValue(c)] == c;
    } else {
      assert HEX_UPPER[HexValue(c)] == c;
    }
  }

  lemma {:induction false} NibblesWithout(d: Dialect, text: string)
    ensures |Nibbles(d, text)| == |Without(text, Separators(d))|
    ensures forall i :: 0 <= i < |Nibbles(d, text)| ==>
              Nibbles(d, text)[i] == HexValue(Without(text, Separators(d))[i])
  {
    if text != [] {
      var n := |text| - 1;
      NibblesWithout(d, text[..n]);
      SkipsIs(d, text[n]);
    }
  }

  /** A parser accepts exactly the texts that have 32 hexadecimal digits and nothing else
      once its separators are removed. */
  lemma AcceptsIff(d: Dialect, text: string)
    ensures var rest := Without(text, Separators(d));
            Accepts(d, text) <==> |rest| == 32 && forall i :: 0 <= i < 32 ==> rest[i] in HEX || rest[i] in HEX_UPPER
  {
    var rest := Without(text, Separators(d));
    NibblesWithout(d, text);
    forall i | 0 <= i < |rest| ensures HexValue(rest[i]) >= 0 <==> rest[i] in HEX || rest[i] in HEX_UPPER {
      IsDigit(rest[i]);
    }
  }

  /** A separator may stand anywhere. */
  lemma SeparatorIgnored(d: Dialect, a: string, sep: char, b: string)
    requires sep in Separators(d)
    ensures Parse(d, a + [sep] + b) == Parse(d, a + b)
  {
    SkipsIs(d, sep);
    NibblesSkip(d, a, sep, b);
  }

  lemma NibblesSkip(d: Dialect, a: string, sep: char, b: string)
    requires Skips(d, sep)
    ensures Nibbles(d, a + [sep] + b) == Nibbles(d, a + b)
  {
    assert (a + [sep])[..|a|] == a;
    assert Nibbles(d, a + [sep]) == Nibbles(d, a);
    NibblesCat(d, a + [sep], b);
    NibblesCat(d, a, b);
  }

  lemma ColonAndDash(d: Dialect, a: string, b: string)
    ensures Parse(d, a + ":" + b) == Parse(d, a + b) && Parse(d, a + "-" + b) == Parse(d, a + b)
  {
    assert Separators(d)[0] == ':' && Separators(d)[1] == '-';
    SeparatorIgnored(d, a, ':', b);
    SeparatorIgnored(d, a, '-', b);
  }
}
