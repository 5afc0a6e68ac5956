/** Shard sections: headers, each followed by as many entries as it declares. */
module ShardSections {
  import opened Bytes

  datatype SectionCodec<!H, !E> = SectionCodec(header: Codec<H>, entry: Codec<E>, count: H -> nat) {
    function CountOf(h: H): nat { count(h) }
  }

  ghost predicate ExactSection<H(!new), E(!new)>(sc: SectionCodec<H, E>) {
    Exact(sc.header) && Exact(sc.entry)
  }

  /** The counts of the headers share out the entries exactly. */
  predicate Shares<H, E>(sc: SectionCodec<H, E>, headers: seq<H>, entries: seq<E>) {
    if headers == [] then entries == []
    else sc.CountOf(headers[0]) <= |entries| && Shares(sc, headers[1..], entries[sc.CountOf(headers[0])..])
  }

  function RenderSection<H, E>(sc: SectionCodec<H, E>, headers: seq<H>, entries: seq<E>): Bytes
    requires Shares(sc, headers, entries)
  {
    if headers == [] then []
    else
      var n := sc.CountOf(headers[0]);
      sc.header.enc(headers[0]) + (EncodeAll(sc.entry, entries[..n]) + RenderSection(sc, headers[1..], entries[n..]))
  }

  function ParseSection<H, E>(sc: SectionCodec<H, E>, b: Bytes): Result<(seq<H>, seq<E>)>
    requires sc.header.width > 0
    decreases |b|
  {
    if b == [] then Ok(([], []))
    else if |b| < sc.header.width then Err
    else
      var h := sc.header.dec(b[..sc.header.width]);
      var (es, rest) :- DecodeMany(sc.entry, b[sc.header.width..], sc.CountOf(h));
      var (hs, more) :- ParseSection(sc, rest);
      Ok(([h] + hs, es + more))
  }

  lemma {:induction false} ParseRendered<H(!new), E(!new)>(sc: SectionCodec<H, E>, headers: seq<H>, entries: seq<E>)
    requires ExactSection(sc) && Shares(sc, headers, entries)
    ensures ParseSection(sc, RenderSection(sc, headers, entries)) == Ok((headers, entries))
  {
    hide DecodeMany, EncodeAll;
    if headers != [] {
      var h, n := headers[0], sc.CountOf(headers[0]);
      var first, rest := EncodeAll(sc.entry, entries[..n]), RenderSection(sc, headers[1..], entries[n..]);
      ParseRendered(sc, headers[1..], entries[n..]);
      SplitConcat(sc.header.enc(h), first + rest);
      DecodeEncoded(sc.entry, entries[..n], rest);
      assert headers == [h] + headers[1..];
      assert entries == entries[..n] + entries[n..];
    }
  }

  lemma {:induction false} RenderParsed<H(!new), E(!new)>(sc: SectionCodec<H, E>, b: Bytes)
    requires ExactSection(sc) && ParseSection(sc, b).Ok?
    ensures var (headers, entries) := ParseSection(sc, b).value;
            Shares(sc, headers, entries) && RenderSection(sc, headers, entries) == b
    decreases |b|
  {
    hide DecodeMany, EncodeAll;
    if b != [] {
      var w := sc.header.width;
      var h := sc.header.dec(b[..w]);
      var (es, rest) := DecodeMany(sc.entry, b[w..], sc.CountOf(h)).value;
      DecodedIsEncoding(sc.entry, b[w..], sc.CountOf(h));
      RenderParsed(sc, rest);
      var (hs, more) := ParseSection(sc, rest).value;
      SplitConcat(es, more);
      assert ([h] + hs)[1..] == hs;
      assert b == b[..w] + b[w..];
    }
  }

  /** A section parses exactly to the tables it renders. */
  lemma SectionExact<H(!new), E(!new)>(sc: SectionCodec<H, E>, b: Bytes, headers: seq<H>, entries: seq<E>)
    requires ExactSection(sc)
    ensures ParseSection(sc, b) == Ok((headers, entries))
       <==> Shares(sc, headers, entries) && b == RenderSection(sc, headers, entries)
  {
    if ParseSection(sc, b) == Ok((headers, entries)) {
      RenderParsed(sc, b);
    }
    if Shares(sc, headers, entries) && b == RenderSection(sc, headers, entries) {
      ParseRendered(sc, headers, entries);
    }
  }

  // ----- the parsing loop -----

  /** A parse that had already produced some headers and entries. */
  function AfterTables<H, E>(hs: seq<H>, es: seq<E>, r: Result<(seq<H>, seq<E>)>): Result<(seq<H>, seq<E>)> {
    match r case Err => Err case Ok((hs', es')) => Ok((hs + hs', es + es'))
  }

  lemma AfterTablesStep<H, E>(hs: seq<H>, es: seq<E>, h: H, more: seq<E>, r: Result<(seq<H>, seq<E>)>)
    ensures AfterTables(hs, es, AfterTables([h], more, r)) == AfterTables(hs + [h], es + more, r)
  {
    if r.Ok? {
      Assoc(hs, [h], r.value.0);
      Assoc(es, more, r.value.1);
    }
  }

  lemma AfterNoTables<H, E>(r: Result<(seq<H>, seq<E>)>)
    ensures AfterTables([], [], r) == r
  {
    if r.Ok? {
      assert [] + r.value.0 == r.value.0 && [] + r.value.1 == r.value.1;
    }
  }

  lemma ParseStep<H, E>(sc: SectionCodec<H, E>, data: Bytes, pos: nat, end: nat)
    requires sc.header.width > 0 && pos < end <= |data|
    ensures var p := ParseSection(sc, data[pos..end]);
            var w := sc.header.width;
            && (pos + w > end ==> p == Err)
            && (pos + w <= end ==>
                 var h := sc.header.dec(data[pos..pos + w]);
                 var d := DecodeMany(sc.entry, data[pos + w..end], sc.CountOf(h));
                 && (d.Err? ==> p == Err)
                 && (d.Ok? ==> p == AfterTables([h], d.value.0, ParseSection(sc, d.value.1))))
  {
    var b, w := data[pos..end], sc.header.width;
    if pos + w <= end {
      assert b[..w] == data[pos..pos + w] && b[w..] == data[pos + w..end];
    }
  }

  /** Records are read while the position is inside the section, never past its end. */
  method ReadSection<H(!new), E(!new)>(sc: SectionCodec<H, E>, data: Bytes, start: nat, end: nat)
    returns (r: Result<(seq<H>, seq<E>)>)
    requires ExactSection(sc) && start <= end <= |data|
    ensures r == ParseSection(sc, data[start..end])
  {
    hide ParseSection, DecodeMany, AfterTables, Exact;
    ExactWidths(sc);
    var headers, entries, pos := [], [], start;
    AfterNoTables(ParseSection(sc, data[start..end]));
    while pos < end
      invariant start <= pos <= end
      invariant AfterTables(headers, entries, ParseSection(sc, data[pos..end])) == ParseSection(sc, data[start..end])
      decreases end - pos
    {
      ParseStep(sc, data, pos, end);
      AfterErr(headers, entries);
      if pos + sc.header.width > end {
        return Err;
      }
      var header := sc.header.dec(data[pos..pos + sc.header.width]);
      var entriesStart := pos + sc.header.width;
      var read := ReadMany(sc.entry, data[entriesStart..end], sc.CountOf(header));
      if read.Err? {
        return Err;
      }
      ReadPosition(sc, data, entriesStart, end, sc.CountOf(header));
      AfterTablesStep(headers, entries, header, read.value.0, ParseSection(sc, read.value.1));
      headers := headers + [header];
      entries := entries + read.value.0;
      pos := end - |read.value.1|;
    }
    ParseEmpty(sc, data, end, headers, entries);
    r := Ok((headers, entries));
  }

  lemma ExactWidths<H(!new), E(!new)>(sc: SectionCodec<H, E>)
    requires ExactSection(sc)
    ensures sc.header.width > 0
  {
  }

  lemma AfterErr<H, E>(hs: seq<H>, es: seq<E>)
    ensures AfterTables(hs, es, Err) == Err
  {
  }

  lemma ReadPosition<H(!new), E(!new)>(sc: SectionCodec<H, E>, data: Bytes, start: nat, end: nat, n: nat)
    requires ExactSection(sc) && start <= end <= |data| && DecodeMany(sc.entry, data[start..end], n).Ok?
    ensures var rest := DecodeMany(sc.entry, data[start..end], n).value.1;
            |rest| <= end - start && rest == data[end - |rest|..end]
  {
    DecodedIsEncoding(sc.entry, data[start..end], n);
    var (xs, rest) := DecodeMany(sc.entry, data[start..end], n).value;
    hide DecodeMany, Exact, EncodeAll;
    SplitConcat(EncodeAll(sc.entry, xs), rest);
    var k := |EncodeAll(sc.entry, xs)|;
    assert data[start..end][k..] == data[start + k..end];
  }

  lemma ParseEmpty<H, E>(sc: SectionCodec<H, E>, data: Bytes, end: nat, hs: seq<H>, es: seq<E>)
    requires sc.header.width > 0 && end <= |data|
    ensures AfterTables(hs, es, ParseSection(sc, data[end..end])) == Ok((hs, es))
  {
    assert data[end..end] == [];
    assert hs + [] == hs && es + [] == es;
  }
}
