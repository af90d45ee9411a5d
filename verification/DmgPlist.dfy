/** The property-list path: base64 blocks between data tags, decoded leniently. */
module DmgPlist {
  import opened Bytes
  import opened Options
  import opened DmgTable

  const OPEN_TAG: seq<byte> := [0x3C, 0x64, 0x61, 0x74, 0x61, 0x3E]         // <data>
  const CLOSE_TAG: seq<byte> := [0x3C, 0x2F, 0x64, 0x61, 0x74, 0x61, 0x3E]  // </data>
  const LESS: byte := 0x3C
  const PAD: byte := 0x3D

  /** The base64 value of a character; None for one outside the alphabet. Padding ranks as zero. */
  function Rank(c: byte): (r: Option<nat>)
    ensures r.Some? ==> r.value < 64
  {
    if 65 <= c <= 90 then Some(c - 65)
    else if 97 <= c <= 122 then Some(c - 97 + 26)
    else if 48 <= c <= 57 then Some(c - 48 + 52)
    else if c == 43 then Some(62)
    else if c == 47 then Some(63)
    else if c == PAD then Some(0)
    else None
  }

  /** The alphabet, the other way round. */
  function Symbol(v: nat): (c: byte)
    requires v < 64
    ensures Rank(c) == Some(v) && c != PAD
  {
    if v < 26 then 65 + v
    else if v < 52 then 97 + (v - 26)
    else if v < 62 then 48 + (v - 52)
    else if v == 62 then 43
    else 47
  }

  /** The characters a decoder looks at. */
  function Symbols(s: seq<byte>): seq<byte> {
    if s == [] then []
    else Symbols(s[..|s| - 1]) + if Rank(s[|s| - 1]).Some? then [s[|s| - 1]] else []
  }

  predicate InAlphabet(s: seq<byte>) {
    forall k :: 0 <= k < |s| ==> Rank(s[k]).Some?
  }

  /** The bytes of a complete group of four symbols. */
  function Group(a: byte, b: byte, c: byte, d: byte): seq<byte>
    requires Rank(a).Some? && Rank(b).Some? && Rank(c).Some? && Rank(d).Some?
  {
    var v := ((Rank(a).value * 64 + Rank(b).value) * 64 + Rank(c).value) * 64 + Rank(d).value;
    Emitted(v, c, d)
  }

  /** The three low bytes of the register, less one for each padding symbol at the end. */
  function Emitted(v: nat, c: byte, d: byte): seq<byte> {
    [v / 65536 % 256] + (if c != PAD then [v / 256 % 256] else []) + (if d != PAD then [v % 256] else [])
  }

  /** The first n groups decoded. */
  function Groups(t: seq<byte>, n: nat): seq<byte>
    requires InAlphabet(t) && 4 * n <= |t|
  {
    if n == 0 then []
    else Groups(t, n - 1) + Group(t[4 * n - 4], t[4 * n - 3], t[4 * n - 2], t[4 * n - 1])
  }

  lemma {:induction false} SymbolsInAlphabet(s: seq<byte>)
    ensures InAlphabet(Symbols(s))
  {
    if s != [] {
      SymbolsInAlphabet(s[..|s| - 1]);
    }
  }

  /** Characters outside the alphabet are skipped and a trailing partial group is discarded. */
  function Decode(s: seq<byte>): seq<byte> {
    SymbolsInAlphabet(s);
    Groups(Symbols(s), |Symbols(s)| / 4)
  }

  lemma SymbolsStep(s: seq<byte>, k: nat)
    requires k < |s|
    ensures Symbols(s[..k + 1]) == Symbols(s[..k]) + if Rank(s[k]).Some? then [s[k]] else []
  {
    assert s[..k + 1][..k] == s[..k];
  }

  lemma {:induction false} GroupsOfPrefix(t: seq<byte>, u: seq<byte>, n: nat)
    requires InAlphabet(t) && InAlphabet(u) && 4 * n <= |t| <= |u| && u[..|t|] == t
    ensures Groups(u, n) == Groups(t, n)
  {
    hide Group, Rank;
    if n > 0 {
      GroupsOfPrefix(t, u, n - 1);
      assert forall k :: 0 <= k < |t| ==> u[k] == u[..|t|][k];
    }
  }

  /** The last n symbols as one number. */
  function Register(t: seq<byte>, n: nat): nat
    requires InAlphabet(t) && n <= |t| && n <= 4
  {
    if n == 0 then 0
    else if n == 1 then Rank(t[|t| - 1]).value
    else if n == 2 then Rank(t[|t| - 2]).value * 64 + Rank(t[|t| - 1]).value
    else if n == 3 then (Rank(t[|t| - 3]).value * 64 + Rank(t[|t| - 2]).value) * 64 + Rank(t[|t| - 1]).value
    else
      var high := Rank(t[|t| - 4]).value * 64 + Rank(t[|t| - 3]).value;
      (high * 64 + Rank(t[|t| - 2]).value) * 64 + Rank(t[|t| - 1]).value
  }

  /** 64 to the power n. */
  function Pow64(n: nat): (p: nat)
    requires n <= 4
    ensures p > 0
  {
    match n
    case 0 => 1
    case 1 => 64
    case 2 => 4096
    case 3 => 262144
    case _ => 16777216
  }

  /** Shifting a symbol into a 32-bit register that is never cleared keeps the low symbols right. */
  lemma ShiftIn(t: seq<byte>, c: byte, v: nat, n: nat)
    requires InAlphabet(t) && Rank(c).Some? && n < 4 && n <= |t| && v % Pow64(n) == Register(t, n)
    ensures (v * 64 + Rank(c).value) % U32 % Pow64(n + 1) == Register(t + [c], n + 1)
  {
    hide Rank;
    var u, r := t + [c], Rank(c).value;
    assert u[|u| - 1] == c;
    match n
    case 0 => LowPart(v, r, 1);
    case 1 => LowPart(v, r, 64); assert u[|u| - 2] == t[|t| - 1];
    case 2 => LowPart(v, r, 4096); assert u[|u| - 2] == t[|t| - 1] && u[|u| - 3] == t[|t| - 2];
    case 3 => LowPart(v, r, 262144); assert u[|u| - 2] == t[|t| - 1] && u[|u| - 3] == t[|t| - 2]
      && u[|u| - 4] == t[|t| - 3];
  }

  lemma LowPart(v: nat, r: nat, p: nat)
    requires r < 64 && p in {1, 64, 4096, 262144}
    ensures (v * 64 + r) % U32 % (64 * p) == v % p * 64 + r
  {
    var x := v * 64 + r;
    var q, s := x / U32, x % U32;
    match p
    case 1 => DivModUnique(q * 67108864 + s / 64, 64, s % 64); ShiftedMod(v, r, 1);
    case 64 => DivModUnique(q * 1048576 + s / 4096, 4096, s % 4096); ShiftedMod(v, r, 64);
    case 4096 => DivModUnique(q * 16384 + s / 262144, 262144, s % 262144); ShiftedMod(v, r, 4096);
    case 262144 => DivModUnique(q * 256 + s / 16777216, 16777216, s % 16777216); ShiftedMod(v, r, 262144);
  }

  lemma ShiftedMod(v: nat, r: nat, p: nat)
    requires r < 64 && p > 0
    ensures (v * 64 + r) % (64 * p) == v % p * 64 + r
  {
    var q, s := v / p, v % p;
    assert v == q * p + s;
    assert q * (64 * p) == 64 * (q * p);
    DivModUnique(q, 64 * p, s * 64 + r);
  }

  /** The decoder's loop: a register of symbols, three bytes of it written out every fourth one. */
  method GlibDecode(input: seq<byte>) returns (out: seq<byte>)
    ensures out == Decode(input)
  {
    hide Rank, Group, Register, Pow64, Emitted, Symbols;
    var state: nat, v: nat, last0: byte, last1: byte := 0, 0, 0, 0;
    ghost var seen: seq<byte>, n := [], 0;
    out := [];
    RegisterEmpty(seen, v);
    assert input[..0] == [] && Symbols([]) == [] by { NoSymbols(); }
    for k := 0 to |input|
      invariant seen == Symbols(input[..k]) && InAlphabet(seen)
      invariant 0 <= state < 4 && |seen| == 4 * n + state && v % Pow64(state) == Register(seen, state)
      invariant |seen| > 0 ==> last0 == seen[|seen| - 1]
      invariant |seen| > 1 ==> last1 == seen[|seen| - 2]
      invariant out == Groups(seen, n)
    {
      var rank := Rank(input[k]);
      SymbolsStep(input, k);
      if rank.None? {
        continue;
      }
      ghost var more := seen + [input[k]];
      ShiftIn(seen, input[k], v, state);
      GroupsOfPrefix(seen, more, n);
      last1 := last0;
      last0 := input[k];
      v := (v * 64 + rank.value) % U32;
      state := state + 1;
      seen := more;
      if state == 4 {
        GroupOfRegister(seen, v);
        out := out + Emitted(v, last1, last0);
        state, n := 0, n + 1;
        RegisterEmpty(seen, v);
      }
    }
    assert input[..|input|] == input;
  }

  lemma NoSymbols()
    ensures Symbols([]) == []
  {
  }

  lemma RegisterEmpty(t: seq<byte>, v: nat)
    requires InAlphabet(t)
    ensures v % Pow64(0) == Register(t, 0)
  {
  }

  lemma GroupOfRegister(t: seq<byte>, v: nat)
    requires InAlphabet(t) && |t| >= 4 && v % Pow64(4) == Register(t, 4)
    ensures Group(t[|t| - 4], t[|t| - 3], t[|t| - 2], t[|t| - 1]) ==
            Emitted(v, t[|t| - 2], t[|t| - 1])
  {
    hide Rank;
    var w := v % 16777216;
    LowBytesOf(v, w);
  }

  lemma LowBytesOf(v: nat, w: nat)
    requires w == v % 16777216
    ensures v / 65536 % 256 == w / 65536 % 256 && v / 256 % 256 == w / 256 % 256 && v % 256 == w % 256
  {
    var q := v / 16777216;
    DivModUnique(q * 256 + w / 65536, 65536, w % 65536);
    DivModUnique(q * 65536 + w / 256, 256, w % 256);
    DivModUnique(q, 256, w / 65536);
    DivModUnique(q * 256 + w / 256 / 256, 256, w / 256 % 256);
  }

  /** Four symbols for a 24-bit number. */
  function Quad(v: nat): (q: seq<byte>)
    requires v < 16777216
    ensures |q| == 4 && InAlphabet(q)
  {
    [Symbol(v / 64 / 64 / 64), Symbol(v / 64 / 64 % 64), Symbol(v / 64 % 64), Symbol(v % 64)]
  }

  function Join24(a: nat, b: nat, c: nat): (v: nat)
    requires a < 256 && b < 256 && c < 256
    ensures v < 16777216 && v / 65536 % 256 == a && v / 256 % 256 == b && v % 256 == c
  {
    DivModUnique(a, 65536, b * 256 + c);
    DivModUnique(a * 256 + b, 256, c);
    a * 65536 + b * 256 + c
  }

  /** Standard base64 with padding. */
  function Encode(x: seq<byte>): seq<byte> {
    if x == [] then []
    else if |x| == 1 then Quad(Join24(x[0], 0, 0))[..2] + [PAD, PAD]
    else if |x| == 2 then Quad(Join24(x[0], x[1], 0))[..3] + [PAD]
    else Quad(Join24(x[0], x[1], x[2])) + Encode(x[3..])
  }

  /** A group gives its number back, where the symbols that padding replaces were zero. */
  lemma QuadValue(v: nat, c: byte, d: byte)
    requires v < 16777216
    requires c == Quad(v)[2] || (c == PAD && v % 4096 < 64)
    requires d == Quad(v)[3] || (d == PAD && v % 64 == 0)
    ensures Rank(c).Some? && Rank(d).Some? && Group(Quad(v)[0], Quad(v)[1], c, d) == Emitted(v, c, d)
  {
    hide Rank, Emitted, Symbol;
    PadRank();
    Digits(v);
  }

  lemma Digits(v: nat)
    ensures v == ((v / 64 / 64 / 64 * 64 + v / 64 / 64 % 64) * 64 + v / 64 % 64) * 64 + v % 64
    ensures v % 4096 < 64 ==> v / 64 % 64 == 0
  {
    var p := v / 64;
    assert p == 64 * (p / 64) + p % 64;
    DivModUnique(p / 64, 4096, 64 * (p % 64) + v % 64);
  }

  lemma PadRank()
    ensures Rank(PAD) == Some(0)
  {
  }

  lemma AlphabetJoin(a: seq<byte>, b: seq<byte>)
    requires InAlphabet(a) && InAlphabet(b)
    ensures InAlphabet(a + b)
  {
    hide Rank;
  }

  lemma {:induction false} EncodeShape(x: seq<byte>)
    ensures InAlphabet(Encode(x)) && |Encode(x)| % 4 == 0
  {
    hide Rank, Quad, Join24;
    PadRank();
    if |x| >= 3 {
      EncodeShape(x[3..]);
      AlphabetJoin(Quad(Join24(x[0], x[1], x[2])), Encode(x[3..]));
    }
  }

  lemma GroupStep(t: seq<byte>, n: nat)
    requires InAlphabet(t) && 4 * n + 4 <= |t|
    ensures Groups(t, n + 1) == Groups(t, n) + Group(t[4 * n], t[4 * n + 1], t[4 * n + 2], t[4 * n + 3])
  {
    hide Group, Rank;
  }

  /** The first group can be decoded first. */
  lemma {:induction false} GroupsFront(q: seq<byte>, t: seq<byte>, n: nat)
    requires |q| == 4 && InAlphabet(q) && InAlphabet(t) && 4 * n <= |t|
    ensures InAlphabet(q + t)
    ensures Groups(q + t, n + 1) == Group(q[0], q[1], q[2], q[3]) + Groups(t, n)
  {
    hide Rank, Group, InAlphabet, Groups;
    var u := q + t;
    AlphabetJoin(q, t);
    GroupStep(u, n);
    if n == 0 {
      NoGroups(u);
      NoGroups(t);
    } else {
      GroupsFront(q, t, n - 1);
      GroupStep(t, n - 1);
      var k := 4 * n;
      assert u[k] == t[k - 4] && u[k + 1] == t[k - 3] && u[k + 2] == t[k - 2] && u[k + 3] == t[k - 1];
    }
  }

  lemma NoGroups(t: seq<byte>)
    requires InAlphabet(t)
    ensures Groups(t, 0) == []
  {
  }

  lemma {:induction false} DecodeEncode(x: seq<byte>)
    ensures InAlphabet(Encode(x)) && Groups(Encode(x), |Encode(x)| / 4) == x
  {
    hide Rank, Quad, Join24, Group, Groups, InAlphabet;
    EncodeShape(x);
    if |x| >= 3 {
      var v, rest := Join24(x[0], x[1], x[2]), Encode(x[3..]);
      DecodeEncode(x[3..]);
      EncodeShape(x[3..]);
      QuadValue(v, Quad(v)[2], Quad(v)[3]);
      QuadNoPad(v);
      GroupsFront(Quad(v), rest, |rest| / 4);
      assert x == [x[0], x[1], x[2]] + x[3..];
    } else if |x| == 2 {
      var v := Join24(x[0], x[1], 0);
      LowZero(v);
      QuadValue(v, Quad(v)[2], PAD);
      QuadNoPad(v);
      OneGroup(Encode(x));
      assert x == [x[0], x[1]];
    } else if |x| == 1 {
      var v := Join24(x[0], 0, 0);
      LowZero(v);
      QuadValue(v, PAD, PAD);
      OneGroup(Encode(x));
    } else {
      NoGroups(Encode(x));
    }
  }

  lemma QuadNoPad(v: nat)
    requires v < 16777216
    ensures Quad(v)[2] != PAD && Quad(v)[3] != PAD
  {
    hide Rank;
  }

  lemma LowZero(v: nat)
    ensures v % 256 == 0 ==> v % 64 == 0
    ensures v % 256 == 0 && v / 256 % 256 == 0 ==> v % 4096 < 64
  {
    if v % 256 == 0 {
      DivModUnique(4 * (v / 256), 64, 0);
      if v / 256 % 256 == 0 {
        DivModUnique(16 * (v / 256 / 256), 4096, 0);
      }
    }
  }

  lemma OneGroup(q: seq<byte>)
    requires |q| == 4 && InAlphabet(q)
    ensures Groups(q, 1) == Group(q[0], q[1], q[2], q[3])
  {
    assert Groups(q, 0) == [];
  }

  lemma {:induction false} SymbolsJoin(a: seq<byte>, b: seq<byte>)
    ensures Symbols(a + b) == Symbols(a) + Symbols(b)
  {
    hide Rank;
    if b == [] {
      assert a + b == a;
    } else {
      SymbolsJoin(a, b[..|b| - 1]);
      assert (a + b)[..|a + b| - 1] == a + b[..|b| - 1];
    }
  }

  lemma {:induction false} SymbolsKept(s: seq<byte>)
    requires InAlphabet(s)
    ensures Symbols(s) == s
  {
    if s != [] {
      SymbolsKept(s[..|s| - 1]);
    }
  }

  predicate Blank(s: seq<byte>) {
    forall k :: 0 <= k < |s| ==> s[k] == 9 || s[k] == 10
  }

  lemma {:induction false} SymbolsSkipped(s: seq<byte>)
    requires Blank(s)
    ensures Symbols(s) == []
  {
    if s != [] {
      SymbolsSkipped(s[..|s| - 1]);
    }
  }

  const INDENT: seq<byte> := [9, 9, 9, 9, 9, 9]

  /** Lines of 64 characters, each indented, joined by newlines. */
  function Wrap(e: seq<byte>): seq<byte> {
    if |e| <= 64 then INDENT + e else INDENT + e[..64] + [10] + Wrap(e[64..])
  }

  lemma AlphabetParts(e: seq<byte>, n: nat)
    requires InAlphabet(e) && n <= |e|
    ensures InAlphabet(e[..n]) && InAlphabet(e[n..])
  {
    hide Rank;
  }

  lemma {:induction false} WrapKeepsSymbols(e: seq<byte>)
    requires InAlphabet(e)
    ensures Symbols(Wrap(e)) == e
  {
    hide Rank, InAlphabet, Symbols;
    SymbolsSkipped(INDENT);
    if |e| <= 64 {
      SymbolsJoin(INDENT, e);
      SymbolsKept(e);
    } else {
      var line, rest := e[..64], e[64..];
      AlphabetParts(e, 64);
      WrapKeepsSymbols(rest);
      SymbolsSkipped([10]);
      SymbolsKept(line);
      SymbolsJoin(INDENT, line);
      SymbolsJoin(INDENT + line, [10]);
      SymbolsJoin(INDENT + line + [10], Wrap(rest));
      assert e == line + rest;
    }
  }

  /** The text between the tags for one block. */
  function DataText(mish: seq<byte>): seq<byte> {
    [10] + Wrap(Encode(mish)) + [10, 9, 9, 9, 9, 9]
  }

  /** Base64 text decodes to the block whatever white space it is broken with. */
  lemma DataTextDecodes(mish: seq<byte>)
    ensures Decode(DataText(mish)) == mish
  {
    hide Rank, Groups, Encode;
    var e := Encode(mish);
    DecodeEncode(mish);
    WrapKeepsSymbols(e);
    var lead: seq<byte>, trail: seq<byte> := [10], [10, 9, 9, 9, 9, 9];
    SymbolsSkipped(lead);
    SymbolsSkipped(trail);
    SymbolsJoin(lead, Wrap(e));
    SymbolsJoin(lead + Wrap(e), trail);
    assert Symbols(DataText(mish)) == e;
  }

  predicate NoTag(s: seq<byte>) {
    forall k :: 0 <= k < |s| ==> s[k] != LESS
  }

  lemma {:induction false} WrapNoTag(e: seq<byte>)
    requires InAlphabet(e)
    ensures NoTag(Wrap(e))
  {
    if |e| > 64 {
      WrapNoTag(e[64..]);
    }
  }

  lemma DataTextNoTag(mish: seq<byte>)
    ensures NoTag(DataText(mish))
  {
    hide Rank, Encode, Wrap, InAlphabet;
    EncodeShape(mish);
    WrapNoTag(Encode(mish));
  }

  predicate MatchAt(hay: seq<byte>, needle: seq<byte>, i: nat) {
    i + |needle| <= |hay| && hay[i..i + |needle|] == needle
  }

  /** The first match at or after i. */
  function Find(hay: seq<byte>, needle: seq<byte>, i: nat): (r: Option<nat>)
    ensures r.Some? ==> i <= r.value && MatchAt(hay, needle, r.value)
    decreases |hay| - i
  {
    if i + |needle| > |hay| then None
    else if MatchAt(hay, needle, i) then Some(i)
    else if i == |hay| then None
    else Find(hay, needle, i + 1)
  }

  lemma {:induction false} FindFirst(hay: seq<byte>, needle: seq<byte>, i: nat, j: nat)
    requires i <= j && MatchAt(hay, needle, j)
    requires forall k :: i <= k < j ==> !MatchAt(hay, needle, k)
    ensures Find(hay, needle, i) == Some(j)
    decreases j - i
  {
    assert i < j ==> !MatchAt(hay, needle, i);
    if i < j {
      FindFirst(hay, needle, i + 1, j);
    }
  }

  lemma {:induction false} FindNone(hay: seq<byte>, needle: seq<byte>, i: nat)
    requires forall k :: i <= k < |hay| ==> !MatchAt(hay, needle, k)
    requires needle != []
    ensures Find(hay, needle, i) == None
    decreases |hay| - i
  {
    assert i < |hay| ==> !MatchAt(hay, needle, i);
    if i < |hay| {
      FindNone(hay, needle, i + 1);
    }
  }

  /** The search loop. */
  method FindSubslice(hay: seq<byte>, needle: seq<byte>) returns (r: Option<nat>)
    ensures needle != [] ==> r == Find(hay, needle, 0)
    ensures needle == [] ==> r == Some(0)
  {
    if needle == [] {
      return Some(0);
    }
    if |hay| < |needle| {
      return None;
    }
    var i, last := 0, |hay| - |needle|;
    while i <= last
      invariant Find(hay, needle, i) == Find(hay, needle, 0)
    {
      if hay[i..i + |needle|] == needle {
        return Some(i);
      }
      i := i + 1;
    }
    return None;
  }

  /** Every data element from pos on, decoded and appended; a missing closing tag refuses the image. */
  function ParseData(xml: seq<byte>, pos: nat, dataFork: nat, table: seq<Chunk>): Option<seq<Chunk>>
    decreases |xml| - pos
  {
    match Find(xml, OPEN_TAG, pos)
    case None => Some(table)
    case Some(open) =>
      var start := open + |OPEN_TAG|;
      match Find(xml, CLOSE_TAG, start)
      case None => None
      case Some(close) =>
        match Extended(table, ParseMish(Decode(xml[start..close]), dataFork))
        case None => None
        case Some(grown) => ParseData(xml, close + 1, dataFork, grown)
  }

  function ParsePlist(xml: seq<byte>, dataFork: nat): Option<seq<Chunk>> {
    if |xml| > REGION_CAP then None else ParseData(xml, 0, dataFork, [])
  }

  lemma {:induction false} DataCapped(xml: seq<byte>, pos: nat, dataFork: nat, table: seq<Chunk>)
    requires Capped(table)
    ensures var r := ParseData(xml, pos, dataFork, table);
            r.Some? ==> Capped(r.value)
    decreases |xml| - pos
  {
    hide Find, Decode, ParseMish, Capped;
    var open := Find(xml, OPEN_TAG, pos);
    if open.Some? {
      var start := open.value + |OPEN_TAG|;
      var close := Find(xml, CLOSE_TAG, start);
      if close.Some? {
        var mish := Decode(xml[start..close.value]);
        ExtendedCapped(table, mish, dataFork);
        var grown := Extended(table, ParseMish(mish, dataFork));
        if grown.Some? {
          DataCapped(xml, close.value + 1, dataFork, grown.value);
        }
      }
    }
  }

  lemma SameWindow(hay: seq<byte>, pos: nat, i: nat, n: nat)
    requires pos + i + n <= |hay|
    ensures hay[pos..][i..i + n] == hay[pos + i..pos + i + n]
  {
  }

  lemma SameMatch(hay: seq<byte>, needle: seq<byte>, pos: nat, i: nat)
    requires pos + i + |needle| <= |hay|
    ensures MatchAt(hay[pos..], needle, i) == MatchAt(hay, needle, pos + i)
  {
    SameWindow(hay, pos, i, |needle|);
  }

  lemma {:induction false} FindInSuffix(hay: seq<byte>, needle: seq<byte>, pos: nat, i: nat)
    requires pos + i <= |hay| && needle != []
    ensures Find(hay, needle, pos + i) ==
            match Find(hay[pos..], needle, i) case None => None case Some(r) => Some(pos + r)
    decreases |hay| - pos - i
  {
    hide MatchAt;
    if pos + i + |needle| <= |hay| {
      SameMatch(hay, needle, pos, i);
      FindInSuffix(hay, needle, pos, i + 1);
    }
  }

  /** The scan over a staged property list. */
  method ParsePlistRegion(xml: seq<byte>, dataFork: nat) returns (r: Option<seq<Chunk>>)
    ensures r == ParsePlist(xml, dataFork)
  {
    hide Decode, ParseMish, Find;
    if |xml| > REGION_CAP {
      return None;
    }
    var pos, table := 0, [];
    while true
      invariant pos <= |xml| && |table| <= MAX_CHUNKS
      invariant ParseData(xml, pos, dataFork, table) == ParseData(xml, 0, dataFork, [])
      decreases |xml| - pos
    {
      var open := FindSubslice(xml[pos..], OPEN_TAG);
      FindInSuffix(xml, OPEN_TAG, pos, 0);
      if open.None? {
        return Some(table);
      }
      var start := pos + open.value + |OPEN_TAG|;
      var rel := FindSubslice(xml[start..], CLOSE_TAG);
      FindInSuffix(xml, CLOSE_TAG, start, 0);
      if rel.None? {
        return None;
      }
      var close := start + rel.value;
      var decoded := GlibDecode(xml[start..close]);
      var grown := ParseMishBlock(decoded, dataFork, table);
      if grown.None? {
        return None;
      }
      table, pos := grown.value, close + 1;
    }
  }

  /** Text that neither holds an opening tag nor runs into one too early. */
  predicate Quiet(gap: seq<byte>) {
    forall k :: 0 <= k < |gap| ==> !MatchAt(gap + OPEN_TAG, OPEN_TAG, k)
  }

  /** Data elements, each followed by other text. */
  function Elements(texts: seq<seq<byte>>, fillers: seq<seq<byte>>): seq<byte>
    requires |fillers| == |texts|
  {
    if texts == [] then [] else OPEN_TAG + texts[0] + CLOSE_TAG + fillers[0] + Elements(texts[1..], fillers[1..])
  }

  /** What is left of a closing tag once the scan has stepped past its first character, with the text behind it. */
  function AfterTag(filler: seq<byte>): seq<byte> {
    CLOSE_TAG[1..] + filler
  }

  predicate QuietBetween(fillers: seq<seq<byte>>) {
    forall k :: 0 <= k < |fillers| ==> Quiet(AfterTag(fillers[k]))
  }

  lemma OpenTagFound(xml: seq<byte>, pos: nat, gap: seq<byte>, rest: seq<byte>)
    requires pos <= |xml| && xml[pos..] == gap + (OPEN_TAG + rest) && Quiet(gap)
    ensures Find(xml, OPEN_TAG, pos) == Some(pos + |gap|)
  {
    var at, t := pos + |gap|, gap + OPEN_TAG;
    var tail := xml[pos..];
    assert tail[..|t|] == t;
    assert MatchAt(xml, OPEN_TAG, at) by {
      SameWindow(xml, pos, |gap|, 6);
      assert tail[|gap|..|gap| + 6] == OPEN_TAG;
    }
    forall k | pos <= k < at
      ensures !MatchAt(xml, OPEN_TAG, k)
    {
      assert !MatchAt(t, OPEN_TAG, k - pos);
      SameWindow(xml, pos, k - pos, 6);
      assert t[k - pos..k - pos + 6] == tail[k - pos..k - pos + 6];
    }
    FindFirst(xml, OPEN_TAG, pos, at);
  }

  lemma NoTagFound(xml: seq<byte>, pos: nat)
    requires pos <= |xml| && Quiet(xml[pos..])
    ensures Find(xml, OPEN_TAG, pos) == None
  {
    var gap := xml[pos..];
    forall k | pos <= k < |xml|
      ensures !MatchAt(xml, OPEN_TAG, k)
    {
      assert !MatchAt(gap + OPEN_TAG, OPEN_TAG, k - pos);
      if k + 6 <= |xml| {
        SameWindow(xml, pos, k - pos, 6);
        assert (gap + OPEN_TAG)[k - pos..k - pos + 6] == gap[k - pos..k - pos + 6];
      }
    }
    FindNone(xml, OPEN_TAG, pos);
  }

  lemma CloseTagFound(xml: seq<byte>, start: nat, text: seq<byte>, rest: seq<byte>)
    requires start <= |xml| && xml[start..] == text + (CLOSE_TAG + rest) && NoTag(text)
    ensures Find(xml, CLOSE_TAG, start) == Some(start + |text|)
    ensures xml[start..start + |text|] == text && xml[start + |text| + 1..] == CLOSE_TAG[1..] + rest
  {
    var tail, at := xml[start..], start + |text|;
    SameWindow(xml, start, 0, |text|);
    assert tail[..|text|] == text;
    assert MatchAt(xml, CLOSE_TAG, at) by {
      SameWindow(xml, start, |text|, 7);
      assert tail[|text|..|text| + 7] == CLOSE_TAG;
    }
    forall k | start <= k < at
      ensures !MatchAt(xml, CLOSE_TAG, k)
    {
      assert xml[k] == tail[k - start] == text[k - start];
    }
    FindFirst(xml, CLOSE_TAG, start, at);
    assert xml[at + 1..] == tail[|text| + 1..];
  }

  function Decoded(texts: seq<seq<byte>>): (ms: seq<seq<byte>>)
    ensures |ms| == |texts| && forall k :: 0 <= k < |texts| ==> ms[k] == Decode(texts[k])
  {
    seq(|texts|, k requires 0 <= k < |texts| => Decode(texts[k]))
  }

  lemma Reassociate(a: seq<byte>, b: seq<byte>, c: seq<byte>, d: seq<byte>, e: seq<byte>)
    ensures a + b + c + d + e == a + (b + (c + (d + e)))
  {
  }

  lemma DropPrefix(s: seq<byte>, pos: nat, a: seq<byte>, b: seq<byte>)
    requires pos <= |s| && s[pos..] == a + b
    ensures pos + |a| <= |s| && s[pos + |a|..] == b
  {
    assert |s[pos..]| == |a| + |b|;
    assert s[pos + |a|..] == s[pos..][|a|..];
  }

  lemma ElementsHead(texts: seq<seq<byte>>, fillers: seq<seq<byte>>)
    requires |fillers| == |texts|
    ensures texts == [] ==> Elements(texts, fillers) == []
    ensures texts != [] ==>
              Elements(texts, fillers) ==
              OPEN_TAG + texts[0] + CLOSE_TAG + fillers[0] + Elements(texts[1..], fillers[1..])
  {
  }

  lemma FirstElement(xml: seq<byte>, pos: nat, gap: seq<byte>, texts: seq<seq<byte>>, fillers: seq<seq<byte>>)
    requires |fillers| == |texts| && texts != [] && pos <= |xml| && xml[pos..] == gap + Elements(texts, fillers)
    ensures var rest := texts[0] + (CLOSE_TAG + (fillers[0] + Elements(texts[1..], fillers[1..])));
            && xml[pos..] == gap + (OPEN_TAG + rest) && pos + |gap| + |OPEN_TAG| <= |xml|
            && xml[pos + |gap| + |OPEN_TAG|..] == rest
  {
    hide Elements;
    var more := Elements(texts[1..], fillers[1..]);
    var rest := texts[0] + (CLOSE_TAG + (fillers[0] + more));
    ElementsHead(texts, fillers);
    Reassociate(OPEN_TAG, texts[0], CLOSE_TAG, fillers[0], more);
    DropPrefix(xml, pos, gap, OPEN_TAG + rest);
    DropPrefix(xml, pos + |gap|, OPEN_TAG, rest);
  }

  /** The scan sees exactly the data elements, in order, whatever quiet text surrounds them. */
  lemma {:induction false} PlistWalked(xml: seq<byte>, pos: nat, gap: seq<byte>, texts: seq<seq<byte>>,
                                       fillers: seq<seq<byte>>, dataFork: nat, table: seq<Chunk>)
    requires |fillers| == |texts| && pos <= |xml| && xml[pos..] == gap + Elements(texts, fillers)
    requires Quiet(gap) && QuietBetween(fillers) && forall k :: 0 <= k < |texts| ==> NoTag(texts[k])
    ensures ParseData(xml, pos, dataFork, table) == Assemble(Decoded(texts), dataFork, table)
    decreases |texts|
  {
    hide Find, Quiet, NoTag, ParseMish, Decode, Elements;
    if texts == [] {
      ElementsHead(texts, fillers);
      assert xml[pos..] == gap;
      NoTagFound(xml, pos);
    } else {
      var text, filler, more := texts[0], fillers[0], Elements(texts[1..], fillers[1..]);
      var rest := text + (CLOSE_TAG + (filler + more));
      FirstElement(xml, pos, gap, texts, fillers);
      OpenTagFound(xml, pos, gap, rest);
      var start := pos + |gap| + |OPEN_TAG|;
      CloseTagFound(xml, start, text, filler + more);
      assert CLOSE_TAG[1..] + (filler + more) == AfterTag(filler) + more;
      var grown := Extended(table, ParseMish(Decode(text), dataFork));
      assert Decoded(texts)[1..] == Decoded(texts[1..]);
      if grown.Some? {
        assert forall k :: 0 <= k < |fillers[1..]| ==> fillers[1..][k] == fillers[k + 1];
        PlistWalked(xml, start + |text| + 1, AfterTag(filler), texts[1..], fillers[1..], dataFork, grown.value);
      }
    }
  }

  // ----- sizes -----

  /** Base64 symbols for n bytes. */
  function EncodedSize(n: nat): nat {
    4 * ((n + 2) / 3)
  }

  lemma {:induction false} EncodeSize(x: seq<byte>)
    ensures |Encode(x)| == EncodedSize(|x|)
  {
    hide Quad, Join24;
    if |x| >= 3 {
      EncodeSize(x[3..]);
    }
  }

  /** Lines of 64 symbols; no symbols still make a line. */
  function Lines(n: nat): nat {
    if n <= 64 then 1 else (n + 63) / 64
  }

  lemma {:induction false} WrapSize(e: seq<byte>)
    ensures |Wrap(e)| == |e| + 7 * Lines(|e|) - 1
  {
    if |e| > 64 {
      WrapSize(e[64..]);
      LinesStep(|e|);
    }
  }

  lemma LinesStep(n: nat)
    requires n > 64
    ensures Lines(n) == Lines(n - 64) + 1
  {
  }

  /** The text between the tags for a block of n bytes. */
  function TextSize(n: nat): nat {
    EncodedSize(n) + 7 * Lines(EncodedSize(n)) + 6
  }

  lemma DataTextSize(mish: seq<byte>)
    ensures |DataText(mish)| == TextSize(|mish|)
  {
    hide Encode, Wrap;
    EncodeSize(mish);
    WrapSize(Encode(mish));
  }

  // ----- the alphabet -----

  /** A to Z, a to z, 0 to 9, plus and slash, in this order. */
  lemma Alphabet(v: nat)
    requires v < 64
    ensures Symbol(0) == 'A' as int && Symbol(25) == 'Z' as int && Symbol(26) == 'a' as int && Symbol(51) == 'z' as int
    ensures Symbol(52) == '0' as int && Symbol(61) == '9' as int && Symbol(62) == '+' as int && Symbol(63) == '/' as int
    ensures v !in {25, 51, 61, 62, 63} ==> Symbol(v + 1) == Symbol(v) + 1
    ensures forall c :: Rank(c) == Some(v) <==> c == Symbol(v) || (v == 0 && c == '=' as int)
  {
  }

  /** "Man" in base64, and what padding does to its beginnings. */
  lemma ManEncoded()
    ensures Encode([77, 97, 110]) == [84, 87, 70, 117] && Encode([77, 97]) == [84, 87, 69, 61]
    ensures Encode([77]) == [84, 81, 61, 61]
  {
    hide Quad;
    var man: seq<byte> := [77, 97, 110];
    assert man[3..] == [] && Encode([]) == [];
    QuadOf(19, 22, 5, 46);
    QuadOf(19, 22, 4, 0);
    QuadOf(19, 16, 0, 0);
  }

  lemma QuadOf(a: nat, b: nat, c: nat, d: nat)
    requires a < 64 && b < 64 && c < 64 && d < 64
    ensures ((a * 64 + b) * 64 + c) * 64 + d < 16777216
    ensures Quad(((a * 64 + b) * 64 + c) * 64 + d) == [Symbol(a), Symbol(b), Symbol(c), Symbol(d)]
  {
    hide Symbol;
    DivModUnique((a * 64 + b) * 64 + c, 64, d);
    DivModUnique(a * 64 + b, 64, c);
    DivModUnique(a, 64, b);
  }
}
