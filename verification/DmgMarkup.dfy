/** The property list's own text: the markup around the base64 blocks holds no data tag of its own. */
module DmgMarkup {
  import opened Bytes
  import opened Options
  import opened Decimals
  import opened DmgPlist

  function Ascii(s: string): (b: seq<byte>)
    ensures |b| == |s|
  {
    seq(|s|, k requires 0 <= k < |s| => if s[k] as int < 128 then s[k] as int else 0)
  }

  /** No "<da" in the text, and no "<" in its last two characters. */
  predicate Plain(s: string) {
    forall k :: 0 <= k < |s| && s[k] == '<' ==> k + 2 < |s| && !(s[k + 1] == 'd' && s[k + 2] == 'a')
  }

  predicate PlainBytes(b: seq<byte>) {
    forall k :: 0 <= k < |b| && b[k] == LESS ==> k + 2 < |b| && !(b[k + 1] == 0x64 && b[k + 2] == 0x61)
  }

  lemma AsciiPlain(s: string)
    requires Plain(s)
    ensures PlainBytes(Ascii(s))
  {
  }

  lemma PlainJoin(a: seq<byte>, b: seq<byte>)
    requires PlainBytes(a) && PlainBytes(b)
    ensures PlainBytes(a + b)
  {
    forall k | 0 <= k < |a + b| && (a + b)[k] == LESS
      ensures k + 2 < |a + b| && !((a + b)[k + 1] == 0x64 && (a + b)[k + 2] == 0x61)
    {
      if k < |a| {
        assert a[k] == LESS;
      } else {
        assert b[k - |a|] == LESS;
      }
    }
  }

  /** Such text is quiet: the scan for data tags passes over it. */
  lemma PlainIsQuiet(b: seq<byte>)
    requires PlainBytes(b)
    ensures Quiet(b)
  {
    var t := b + OPEN_TAG;
    forall k | 0 <= k < |b|
      ensures !MatchAt(t, OPEN_TAG, k)
    {
      if MatchAt(t, OPEN_TAG, k) {
        TagStart(t, k);
      }
    }
  }

  lemma TagStart(t: seq<byte>, k: nat)
    requires MatchAt(t, OPEN_TAG, k)
    ensures t[k] == LESS && t[k + 1] == 0x64 && t[k + 2] == 0x61
  {
    var w := t[k..k + 6];
    assert w[0] == t[k] && w[1] == t[k + 1] && w[2] == t[k + 2];
  }

  function Joined(pieces: seq<string>): seq<byte> {
    if pieces == [] then [] else Joined(pieces[..|pieces| - 1]) + Ascii(pieces[|pieces| - 1])
  }

  predicate AllPlain(pieces: seq<string>) {
    forall k :: 0 <= k < |pieces| ==> Plain(pieces[k])
  }

  lemma NothingIsPlain()
    ensures PlainBytes([])
  {
  }

  lemma {:induction false} JoinedPlain(pieces: seq<string>)
    requires AllPlain(pieces)
    ensures PlainBytes(Joined(pieces))
  {
    hide Plain, PlainBytes, Ascii;
    NothingIsPlain();
    if pieces != [] {
      JoinedPlain(pieces[..|pieces| - 1]);
      AsciiPlain(pieces[|pieces| - 1]);
      PlainJoin(Joined(pieces[..|pieces| - 1]), Ascii(pieces[|pieces| - 1]));
    }
  }

  const XML: seq<string> := [
    "<?xml version=\"1.0\" ", "encoding=\"UTF-8\"?>\n", "<!DOCTYPE plist PUBLIC "]

  const DOCTYPE: seq<string> := [
    "\"-//Apple//DTD PLIST ", "1.0//EN\" ", "\"http://www.apple.com/", "DTDs/PropertyList-", "1.0.dtd\">\n"]

  const HEAD: seq<string> := [
    "<plist version=\"1.0\">\n", "<dict>\n\t", "<key>resource-fork</key>", "\n\t<dict>\n",
    "\t\t<key>blkx</key>\n", "\t\t<array>\n"]

  const ENTRY_LEAD: seq<string> := [
    "\t\t\t\t<dict>\n", "\t\t\t\t\t<key>Attributes", "</key>\n\t\t\t\t\t<string>", "0x0050</string>\n",
    "\t\t\t\t\t<key>Data</key>\n", "\t\t\t\t\t"]

  const ENTRY_ID: seq<string> := ["\n\t\t\t\t\t<key>ID</key>", "\n\t\t\t\t\t<string>"]

  const ENTRY_END: seq<string> := [
    "</string>\n\t\t\t\t\t", "<key>Name</key>\n", "\t\t\t\t\t<string>", "instar-fuzz</string>", "\n\t\t\t\t</dict>"]

  const TAIL: seq<string> := ["\n\t\t</array>\n\t", "</dict>\n</dict>\n", "</plist>\n"]

  lemma XmlPlain()
    ensures AllPlain(XML) && AllPlain(DOCTYPE)
  {
    assert Plain(XML[0]) && Plain(XML[1]) && Plain(XML[2]);
    DoctypePlain();
  }

  lemma DoctypePlain()
    ensures AllPlain(DOCTYPE)
  {
    assert Plain(DOCTYPE[0]) && Plain(DOCTYPE[1]) && Plain(DOCTYPE[2]) && Plain(DOCTYPE[3]) && Plain(DOCTYPE[4]);
  }

  lemma HeadPlain()
    ensures AllPlain(HEAD)
  {
    assert Plain(HEAD[0]) && Plain(HEAD[1]) && Plain(HEAD[2]) && Plain(HEAD[3]) && Plain(HEAD[4]) && Plain(HEAD[5]);
  }

  lemma LeadPlain()
    ensures AllPlain(ENTRY_LEAD)
  {
    assert Plain(ENTRY_LEAD[0]) && Plain(ENTRY_LEAD[1]) && Plain(ENTRY_LEAD[2]);
    assert Plain(ENTRY_LEAD[3]) && Plain(ENTRY_LEAD[4]) && Plain(ENTRY_LEAD[5]);
  }

  lemma EndPlain()
    ensures AllPlain(ENTRY_ID) && AllPlain(ENTRY_END) && AllPlain(TAIL)
  {
    assert Plain(ENTRY_ID[0]) && Plain(ENTRY_ID[1]);
    assert Plain(ENTRY_END[0]) && Plain(ENTRY_END[1]) && Plain(ENTRY_END[2]) && Plain(ENTRY_END[3])
      && Plain(ENTRY_END[4]);
    TailPlain();
  }

  lemma TailPlain()
    ensures AllPlain(TAIL)
  {
    assert Plain(TAIL[0]) && Plain(TAIL[1]) && Plain(TAIL[2]);
  }

  function Head(): seq<byte> {
    Joined(XML) + Joined(DOCTYPE) + Joined(HEAD)
  }

  /** From the start of the document to the first data element. */
  function Opening(): seq<byte> {
    Head() + Joined(ENTRY_LEAD)
  }

  /** An entry, from its data element's end on. */
  function EntryEnd(k: nat): seq<byte> {
    Joined(ENTRY_ID) + Ascii(Decimal(k)) + Joined(ENTRY_END)
  }

  /** Between entry k of n and the next data element, or from the last entry to the end of the document. */
  function Gap(k: nat, n: nat): seq<byte> {
    if k + 1 < n then [10] + Joined(ENTRY_LEAD) else Joined(TAIL)
  }

  /** What follows each of n data elements. */
  function Fillers(n: nat): (fs: seq<seq<byte>>)
    ensures |fs| == n
  {
    seq(n, k requires 0 <= k < n => EntryEnd(k) + Gap(k, n))
  }

  function DataTexts(mishes: seq<seq<byte>>): (texts: seq<seq<byte>>)
    ensures |texts| == |mishes| && forall k :: 0 <= k < |mishes| ==> texts[k] == DataText(mishes[k])
  {
    seq(|mishes|, k requires 0 <= k < |mishes| => DataText(mishes[k]))
  }

  lemma {:induction false} ElementsAppend(texts: seq<seq<byte>>, fillers: seq<seq<byte>>, text: seq<byte>,
                                          filler: seq<byte>)
    requires |fillers| == |texts|
    ensures Elements(texts + [text], fillers + [filler]) ==
              Elements(texts, fillers) + (OPEN_TAG + text + CLOSE_TAG + filler)
  {
    hide Elements;
    var ts, fs, last := texts + [text], fillers + [filler], OPEN_TAG + text + CLOSE_TAG + filler;
    ElementsHead(ts, fs);
    ElementsHead(texts, fillers);
    if texts == [] {
      assert ts[1..] == [] && fs[1..] == [];
      ElementsHead(ts[1..], fs[1..]);
    } else {
      ElementsAppend(texts[1..], fillers[1..], text, filler);
      assert ts[1..] == texts[1..] + [text] && fs[1..] == fillers[1..] + [filler];
      var first, more := OPEN_TAG + texts[0] + CLOSE_TAG + fillers[0], Elements(texts[1..], fillers[1..]);
      assert first + (more + last) == (first + more) + last;
    }
  }

  lemma OneElementMore(texts: seq<seq<byte>>, fillers: seq<seq<byte>>, k: nat)
    requires |fillers| == |texts| && k < |texts|
    ensures Elements(texts[..k + 1], fillers[..k + 1]) ==
            Elements(texts[..k], fillers[..k]) + (OPEN_TAG + texts[k] + CLOSE_TAG + fillers[k])
  {
    hide Elements;
    ElementsAppend(texts[..k], fillers[..k], texts[k], fillers[k]);
    assert texts[..k + 1] == texts[..k] + [texts[k]] && fillers[..k + 1] == fillers[..k] + [fillers[k]];
  }

  lemma Regrouped(a: seq<byte>, b: seq<byte>, c: seq<byte>, d: seq<byte>)
    ensures (a + b + c) + d == a + (b + (c + d))
  {
  }

  /** The writer: an entry for each block, joined by newlines, between head and tail. */
  method BuildPlist(mishes: seq<seq<byte>>) returns (xml: seq<byte>)
    ensures mishes == [] ==> xml == Head() + Joined(TAIL)
    ensures mishes != [] ==> xml == Opening() + Elements(DataTexts(mishes), Fillers(|mishes|))
  {
    hide Elements, Head, Joined, EntryEnd, DataText;
    ghost var n, texts, fillers := |mishes|, DataTexts(mishes), Fillers(|mishes|);
    xml := Head();
    for k := 0 to |mishes|
      invariant k == 0 ==> xml == Head()
      invariant k > 0 ==> xml + Gap(k - 1, n) == Opening() + Elements(texts[..k], fillers[..k])
    {
      ghost var before := xml;
      xml := (if k > 0 then xml + [10] else xml) + Joined(ENTRY_LEAD);
      if k == 0 {
        assert Elements(texts[..0], fillers[..0]) == [] by { ElementsHead(texts[..0], fillers[..0]); }
      } else {
        assert xml == before + Gap(k - 1, n);
      }
      assert xml == Opening() + Elements(texts[..k], fillers[..k]);
      ghost var start, data := xml, OPEN_TAG + texts[k] + CLOSE_TAG;
      xml := xml + (OPEN_TAG + DataText(mishes[k]) + CLOSE_TAG) + EntryEnd(k);
      OneElementMore(texts, fillers, k);
      Regrouped(start, data, EntryEnd(k), Gap(k, n));
      assert data + (EntryEnd(k) + Gap(k, n)) == data + fillers[k];
    }
    xml := xml + Joined(TAIL);
    assert texts[..n] == texts && fillers[..n] == fillers;
  }

  lemma NumberPlain(k: nat)
    ensures PlainBytes(Ascii(Decimal(k)))
  {
    OnlyDigits(k);
  }

  lemma NewlinePlain()
    ensures PlainBytes([10])
  {
  }

  lemma ClosePlain()
    ensures PlainBytes(CLOSE_TAG[1..])
  {
  }

  lemma HeadQuiet()
    ensures Quiet(Opening())
  {
    hide PlainBytes, AllPlain, Joined, Quiet;
    XmlPlain();
    HeadPlain();
    LeadPlain();
    JoinedPlain(XML);
    JoinedPlain(DOCTYPE);
    JoinedPlain(HEAD);
    JoinedPlain(ENTRY_LEAD);
    PlainJoin(Joined(XML), Joined(DOCTYPE));
    PlainJoin(Joined(XML) + Joined(DOCTYPE), Joined(HEAD));
    PlainJoin(Head(), Joined(ENTRY_LEAD));
    PlainIsQuiet(Opening());
  }

  lemma EntryEndPlain(k: nat)
    ensures PlainBytes(EntryEnd(k))
  {
    hide PlainBytes, AllPlain, Joined, Ascii;
    EndPlain();
    JoinedPlain(ENTRY_ID);
    JoinedPlain(ENTRY_END);
    NumberPlain(k);
    PlainJoin(Joined(ENTRY_ID), Ascii(Decimal(k)));
    PlainJoin(Joined(ENTRY_ID) + Ascii(Decimal(k)), Joined(ENTRY_END));
  }

  lemma GapPlain(k: nat, n: nat)
    ensures PlainBytes(Gap(k, n))
  {
    hide PlainBytes, AllPlain, Joined;
    TailPlain();
    LeadPlain();
    JoinedPlain(ENTRY_LEAD);
    JoinedPlain(TAIL);
    NewlinePlain();
    PlainJoin([10], Joined(ENTRY_LEAD));
  }

  /** The writer's own markup never looks like a data tag, whatever the number of entries. */
  lemma MarkupQuiet(n: nat)
    ensures Quiet(Opening()) && QuietBetween(Fillers(n))
  {
    hide PlainBytes, EntryEnd, Gap, Quiet, Head, Joined;
    HeadQuiet();
    ClosePlain();
    forall k | 0 <= k < n
      ensures Quiet(AfterTag(Fillers(n)[k]))
    {
      EntryEndPlain(k);
      GapPlain(k, n);
      PlainJoin(EntryEnd(k), Gap(k, n));
      PlainJoin(CLOSE_TAG[1..], Fillers(n)[k]);
      PlainIsQuiet(AfterTag(Fillers(n)[k]));
    }
  }

  // ----- sizes -----

  /** Characters in the first n pieces. */
  function Total(pieces: seq<string>, n: nat): nat
    requires n <= |pieces|
  {
    if n == 0 then 0 else Total(pieces, n - 1) + |pieces[n - 1]|
  }

  lemma {:induction false} JoinedSize(pieces: seq<string>, n: nat)
    requires n <= |pieces|
    ensures |Joined(pieces[..n])| == Total(pieces, n)
  {
    hide Ascii;
    if n > 0 {
      JoinedSize(pieces, n - 1);
      assert pieces[..n][..n - 1] == pieces[..n - 1];
    } else {
      assert pieces[..0] == [];
    }
  }

  lemma WholeSize(pieces: seq<string>)
    ensures |Joined(pieces)| == Total(pieces, |pieces|)
  {
    JoinedSize(pieces, |pieces|);
    assert pieces[..|pieces|] == pieces;
  }

  const HEAD_SIZE: nat := 233
  const LEAD_SIZE: nat := 93
  const END_SIZE: nat := 109
  const TAIL_SIZE: nat := 38

  lemma HeadSize()
    ensures |Head()| == HEAD_SIZE
  {
    hide Joined;
    WholeSize(XML);
    WholeSize(DOCTYPE);
    WholeSize(HEAD);
    assert Total(XML, 2) == 39 && Total(XML, 3) == 62;
    assert Total(DOCTYPE, 2) == 30 && Total(DOCTYPE, 4) == 70 && Total(DOCTYPE, 5) == 80;
    assert Total(HEAD, 2) == 30 && Total(HEAD, 4) == 63 && Total(HEAD, 6) == 91;
  }

  lemma MarkupSizes()
    ensures |Joined(ENTRY_LEAD)| == LEAD_SIZE && |Joined(TAIL)| == TAIL_SIZE
    ensures |Joined(ENTRY_ID)| + |Joined(ENTRY_END)| == END_SIZE
  {
    hide Joined;
    WholeSize(ENTRY_LEAD);
    WholeSize(ENTRY_ID);
    WholeSize(ENTRY_END);
    WholeSize(TAIL);
    assert Total(ENTRY_LEAD, 2) == 31 && Total(ENTRY_LEAD, 4) == 67 && Total(ENTRY_LEAD, 6) == 93;
    assert Total(ENTRY_ID, 2) == 33;
    assert Total(ENTRY_END, 2) == 31 && Total(ENTRY_END, 4) == 64 && Total(ENTRY_END, 5) == 76;
    assert Total(TAIL, 2) == 29 && Total(TAIL, 3) == 38;
  }

  /** An entry and what joins it to its neighbours, less the text of its block. */
  const ENTRY_SIZE: nat := LEAD_SIZE + 1 + 13 + END_SIZE

  /** The first n entries, for blocks of the given sizes. */
  function EntriesSize(sizes: seq<nat>, n: nat): nat
    requires n <= |sizes|
  {
    if n == 0 then 0 else EntriesSize(sizes, n - 1) + ENTRY_SIZE + TextSize(sizes[n - 1]) + |Decimal(n - 1)|
  }

  /** A property list for blocks of the given sizes; the newline of the last entry is not there. */
  function PlistSize(sizes: seq<nat>): nat {
    if sizes == [] then HEAD_SIZE + TAIL_SIZE else HEAD_SIZE + EntriesSize(sizes, |sizes|) + TAIL_SIZE - 1
  }

  function Sizes(mishes: seq<seq<byte>>): (r: seq<nat>)
    ensures |r| == |mishes| && forall k :: 0 <= k < |mishes| ==> r[k] == |mishes[k]|
  {
    seq(|mishes|, k requires 0 <= k < |mishes| => |mishes[k]|)
  }

  lemma GapSize(k: nat, n: nat)
    ensures |Gap(k, n)| == if k + 1 < n then 1 + LEAD_SIZE else TAIL_SIZE
  {
    hide Joined;
    MarkupSizes();
  }

  lemma EntryEndSize(k: nat)
    ensures |EntryEnd(k)| == END_SIZE + |Decimal(k)|
  {
    hide Joined;
    MarkupSizes();
  }

  lemma {:induction false} ElementsSize(mishes: seq<seq<byte>>, k: nat)
    requires k <= |mishes|
    ensures var n := |mishes|;
            |Elements(DataTexts(mishes)[..k], Fillers(n)[..k])| ==
            EntriesSize(Sizes(mishes), k) + if k == n && n > 0 then TAIL_SIZE - LEAD_SIZE - 1 else 0
  {
    hide Elements, DataText, EntryEnd, Gap, TextSize, Decimal;
    var n, texts, fillers := |mishes|, DataTexts(mishes), Fillers(|mishes|);
    if k == 0 {
      assert texts[..0] == [] && fillers[..0] == [];
      ElementsHead(texts[..0], fillers[..0]);
    } else {
      ElementsSize(mishes, k - 1);
      OneElementMore(texts, fillers, k - 1);
      DataTextSize(mishes[k - 1]);
      EntryEndSize(k - 1);
      GapSize(k - 1, n);
    }
  }

  /** How long a written property list is. */
  lemma PlistSizeIs(mishes: seq<seq<byte>>)
    requires mishes != []
    ensures |Opening() + Elements(DataTexts(mishes), Fillers(|mishes|))| == PlistSize(Sizes(mishes))
  {
    hide Elements, DataText, EntryEnd, Gap, TextSize, Decimal, Joined, Head, EntriesSize;
    var n := |mishes|;
    ElementsSize(mishes, n);
    assert DataTexts(mishes)[..n] == DataTexts(mishes) && Fillers(n)[..n] == Fillers(n);
    HeadSize();
    MarkupSizes();
  }
}
