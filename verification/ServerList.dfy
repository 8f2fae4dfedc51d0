/** The paginated list of server addresses: its packets (crates/xash3d-protocol/src/net/master.rs) and the loop
    that sends them (crates/xash3d-master/src/master_server.rs). */
module ServerList {
  import opened Prelude
  import opened Types
  import opened Cursors

  const HEADER: bytes := [0xff, 0xff, 0xff, 0xff, 0x66, 0x0a]
  const KEY_START: byte := 0x7f
  const KEY_END: byte := 8

  predicate AllOf(f: Family, list: seq<Addr>) {
    forall a | a in list :: f.Fits(a)
  }

  function AddressBytes(a: Addr): bytes {
    a.ip + [a.port / 256, a.port % 256]
  }

  function AddressOf(f: Family, s: bytes): Addr
    requires f.Size() <= |s|
  {
    var n := f.Size() - 2;
    Addr(s[..n], s[n] as int * 256 + s[n + 1])
  }

  function ListBytes(list: seq<Addr>): bytes {
    if list == [] then [] else AddressBytes(list[0]) + ListBytes(list[1..])
  }

  function EndMarker(f: Family): bytes {
    seq(f.Size(), _ => 0)
  }

  function KeyBytes(key: Option<u32>): bytes {
    if key.Some? then [KEY_START] + (ToLe(key.value, 4) + [KEY_END]) else []
  }

  function Prefix(key: Option<u32>): bytes {
    HEADER + KeyBytes(key)
  }

  function Packet(f: Family, key: Option<u32>, page: seq<Addr>): bytes {
    Prefix(key) + (ListBytes(page) + EndMarker(f))
  }

  // Reading a packet

  /** The addresses part and the key, if there seems to be one. */
  function Decode(src: bytes): Result<(bytes, Option<u32>), Error> {
    match ReadExpect(src, HEADER)
    case Err(e) => Err(CursorFailed(e))
    case Ok(r) =>
      var s := r.1;
      if |s| >= 6 && s[0] == KEY_START && s[5] == KEY_END then
        FromLeIsBounded(s[1..5]);
        Widths();
        Ok((s[6..], Some(FromLe(s[1..5]))))
      else Ok((s, None))
  }

  predicate IsEndMarker(f: Family, s: bytes) {
    |s| == f.Size() && s[|s| - 2] == 0 && s[|s| - 1] == 0
  }

  /** All addresses that the iterator yields. */
  function Iterate(f: Family, s: bytes): seq<Addr> {
    if IsEndMarker(f, s) || |s| < f.Size() then [] else [AddressOf(f, s)] + Iterate(f, s[f.Size()..])
  }

  method NextAddress(f: Family, cur: Cursor) returns (item: Option<Addr>)
    requires cur.Valid()
    modifies cur
    ensures cur.Valid()
    ensures var s := old(cur.Rest());
            if IsEndMarker(f, s) || |s| < f.Size() then item == None
            else item == Some(AddressOf(f, s)) && cur.Rest() == s[f.Size()..]
  {
    ghost var s := cur.Rest();
    var n := |cur.buffer|;
    if n - cur.pos == f.Size() && cur.buffer[n - 2..] == [0, 0] {
      assert s[|s| - 2] == cur.buffer[n - 2..][0] && s[|s| - 1] == cur.buffer[n - 2..][1];
      return None;
    }
    var ip := cur.GetBytes(f.Size() - 2);
    if ip.Err? {
      return None;
    }
    var port := cur.GetBytes(2);
    if port.Err? {
      return None;
    }
    item := Some(Addr(ip.value, port.value[0] as int * 256 + port.value[1]));
  }

  method Collect(f: Family, inner: bytes) returns (list: seq<Addr>)
    ensures list == Iterate(f, inner)
  {
    var cur := new Cursor(inner);
    list := [];
    while true
      invariant cur.Valid() && Iterate(f, inner) == list + Iterate(f, cur.Rest())
      decreases |cur.Rest()|
    {
      ghost var rest := cur.Rest();
      var item := NextAddress(f, cur);
      if item.None? {
        return;
      }
      Assoc(list, [item.value], Iterate(f, rest[f.Size()..]));
      list := list + [item.value];
    }
  }

  lemma AddressRoundTrip(f: Family, a: Addr, rest: bytes)
    requires f.Fits(a)
    ensures var s := AddressBytes(a) + rest; AddressOf(f, s) == a && s[f.Size()..] == rest
  {
    var s := AddressBytes(a) + rest;
    assert s[..f.Size() - 2] == a.ip;
  }

  /** The iterator yields exactly the listed addresses, even those with port 0. */
  lemma {:induction false} IterateInvertsList(f: Family, list: seq<Addr>)
    requires AllOf(f, list)
    ensures Iterate(f, ListBytes(list) + EndMarker(f)) == list
    ensures |ListBytes(list)| == |list| * f.Size()
    decreases |list|
  {
    if list == [] {
      assert [] + EndMarker(f) == EndMarker(f);
    } else {
      assert list[0] in list;
      var rest := ListBytes(list[1..]) + EndMarker(f);
      IterateInvertsList(f, list[1..]);
      Assoc(AddressBytes(list[0]), ListBytes(list[1..]), EndMarker(f));
      AddressRoundTrip(f, list[0], rest);
    }
  }

  // Writing a packet

  /** How many addresses a packet takes: one place is kept for the end marker. */
  function Capacity(f: Family, key: Option<u32>, cap: nat): nat {
    var left := cap - |Prefix(key)|;
    if left < 2 * f.Size() then 0 else left / f.Size() - 1
  }

  lemma CapacityAt(f: Family, key: Option<u32>, cap: nat, count: nat, left: nat)
    requires cap - |Prefix(key)| == count * f.Size() + left
    ensures f.Size() <= left ==> count <= Capacity(f, key, cap)
    ensures left < 2 * f.Size() && (count == 0 || f.Size() <= left) ==> count == Capacity(f, key, cap)
  {
  }

  lemma {:induction false} ListBytesSnoc(list: seq<Addr>, a: Addr)
    ensures ListBytes(list + [a]) == ListBytes(list) + AddressBytes(a)
    decreases |list|
  {
    if list == [] {
      assert [a][1..] == [] && AddressBytes(a) + [] == AddressBytes(a);
    } else {
      ListBytesSnoc(list[1..], a);
      assert (list + [a])[1..] == list[1..] + [a];
      Assoc(AddressBytes(list[0]), ListBytes(list[1..]), AddressBytes(a));
    }
  }

  method PutKey(cur: CursorMut, key: u32) returns (r: Result<(), CursorError>)
    requires cur.Valid()
    modifies cur, cur.buffer
    ensures cur.Appended(KeyBytes(Some(key)), r)
  {
    ghost var w := cur.Written();
    var _ :- cur.PutU8(KEY_START);
    var _ :- cur.PutBytes(ToLe(key, 4));
    r := cur.PutU8(KEY_END);
    Assoc(w + [KEY_START], ToLe(key, 4), [KEY_END]);
    Assoc(w, [KEY_START], ToLe(key, 4) + [KEY_END]);
  }

  method PutPrefix(cur: CursorMut, key: Option<u32>) returns (r: Result<(), CursorError>)
    requires cur.Valid()
    modifies cur, cur.buffer
    ensures cur.Appended(Prefix(key), r)
  {
    ghost var w := cur.Written();
    var _ :- cur.PutBytes(HEADER);
    if key.Some? {
      var _ :- PutKey(cur, key.value);
    }
    Assoc(w, HEADER, KeyBytes(key));
    r := Ok(());
  }

  method PutAddress(cur: CursorMut, a: Addr) returns (r: Result<(), CursorError>)
    requires cur.Valid()
    modifies cur, cur.buffer
    ensures cur.Appended(AddressBytes(a), r)
  {
    ghost var w := cur.Written();
    var _ :- cur.PutBytes(a.ip);
    r := cur.PutBytes([a.port / 256, a.port % 256]);
    Assoc(w, a.ip, [a.port / 256, a.port % 256]);
  }

  /** Puts addresses as long as there is room for one more behind it. */
  method PutList(cur: CursorMut, f: Family, list: seq<Addr>) returns (count: nat)
    requires cur.Valid() && AllOf(f, list)
    modifies cur, cur.buffer
    ensures cur.Valid() && count <= |list|
    ensures cur.Written() == old(cur.Written()) + ListBytes(list[..count])
    ensures cur.Available() == old(cur.Available()) - count * f.Size()
    ensures count == 0 || f.Size() <= cur.Available()
    ensures count < |list| ==> cur.Available() < 2 * f.Size()
  {
    ghost var w := cur.Written();
    count := 0;
    assert w + ListBytes([]) == w;
    while count < |list|
      invariant cur.Valid() && count <= |list|
      invariant cur.Written() == w + ListBytes(list[..count])
      invariant cur.Available() == old(cur.Available()) - count * f.Size()
      invariant count == 0 || f.Size() <= cur.Available()
    {
      if cur.Available() < 2 * f.Size() {
        return;
      }
      assert list[count] in list;
      var put := PutAddress(cur, list[count]);
      ListBytesSnoc(list[..count], list[count]);
      assert list[..count] + [list[count]] == list[..count + 1];
      Assoc(w, ListBytes(list[..count]), AddressBytes(list[count]));
      count := count + 1;
    }
  }

  /** The encoder: returns the packet's length and how many addresses it took. It fails exactly when there is
      no room for the end marker. */
  method Encode(f: Family, key: Option<u32>, buffer: array<byte>, list: seq<Addr>)
    returns (r: Result<(nat, nat), Error>)
    requires AllOf(f, list)
    modifies buffer
    ensures r.Ok? <==> |Prefix(key)| + f.Size() <= buffer.Length
    ensures r.Err? ==> r.error == CursorFailed(BufferOverflow)
    ensures r.Ok? ==>
              var (n, count) := r.value;
              && n <= buffer.Length && count == Min(|list|, Capacity(f, key, buffer.Length))
              && buffer[..n] == Packet(f, key, list[..count])
  {
    var cur := new CursorMut(buffer);
    var start := PutPrefix(cur, key);
    if start.Err? {
      return Err(CursorFailed(start.error));
    }
    var count := PutList(cur, f, list);
    CapacityAt(f, key, buffer.Length, count, cur.Available());
    var end := cur.PutBytes(EndMarker(f));
    if end.Err? {
      return Err(CursorFailed(end.error));
    }
    Assoc(Prefix(key), ListBytes(list[..count]), EndMarker(f));
    assert buffer[..cur.Pos()] == cur.Written();
    r := Ok((cur.Pos(), count));
  }

  // Sending a list

  /** Every packet takes at least one address. */
  predicate MakesProgress(f: Family, key: Option<u32>, cap: nat) {
    |Prefix(key)| + 2 * f.Size() <= cap
  }

  /** How a list is cut into packets. */
  function Pages(f: Family, key: Option<u32>, cap: nat, list: seq<Addr>): seq<seq<Addr>>
    decreases |list|
  {
    var n := Min(|list|, Capacity(f, key, cap));
    if n == 0 || n == |list| then [list[..n]] else [list[..n]] + Pages(f, key, cap, list[n..])
  }

  function Packets(f: Family, key: Option<u32>, pages: seq<seq<Addr>>): seq<bytes> {
    seq(|pages|, i requires 0 <= i < |pages| => Packet(f, key, pages[i]))
  }

  /** send_server_list, with the packets sent as a result. With a buffer that holds the end marker but no
      address in front of it, the loop of the source would send empty packets forever. */
  method SendServerList(f: Family, key: Option<u32>, cap: nat, servers: seq<Addr>)
    returns (r: Result<(), Error>, sent: seq<bytes>)
    requires AllOf(f, servers)
    requires servers == [] || MakesProgress(f, key, cap) || cap < |Prefix(key)| + f.Size()
    ensures r.Ok? <==> |Prefix(key)| + f.Size() <= cap
    ensures if r.Ok? then sent == Packets(f, key, Pages(f, key, cap, servers))
            else sent == [] && r.error == CursorFailed(BufferOverflow)
  {
    sent := [];
    var buffer := new byte[cap];
    var offset := 0;
    while true
      invariant 0 <= offset <= |servers| && (offset == |servers| ==> offset == 0)
      invariant offset > 0 ==> |Prefix(key)| + f.Size() <= cap
      invariant offset == 0 ==> sent == []
      invariant Packets(f, key, Pages(f, key, cap, servers))
             == sent + Packets(f, key, Pages(f, key, cap, servers[offset..]))
      decreases |servers| - offset
    {
      var list := servers[offset..];
      var page := Encode(f, key, buffer, list);
      if page.Err? {
        return Err(page.error), sent;
      }
      var (n, count) := page.value;
      NextPage(f, key, cap, list, sent);
      sent := sent + [buffer[..n]];
      offset := offset + count;
      if offset >= |servers| {
        break;
      }
      assert list[count..] == servers[offset..];
    }
    r := Ok(());
  }

  lemma PacketsConcat(f: Family, key: Option<u32>, page: seq<Addr>, rest: seq<seq<Addr>>)
    ensures Packets(f, key, [page] + rest) == [Packet(f, key, page)] + Packets(f, key, rest)
  {
  }

  /** What follows the first packet of a list that is still to be sent. */
  function LaterPackets(f: Family, key: Option<u32>, cap: nat, list: seq<Addr>): seq<bytes> {
    var n := Min(|list|, Capacity(f, key, cap));
    if n == 0 || n == |list| then [] else Packets(f, key, Pages(f, key, cap, list[n..]))
  }

  lemma NextPage(f: Family, key: Option<u32>, cap: nat, list: seq<Addr>, sent: seq<bytes>)
    ensures sent + Packets(f, key, Pages(f, key, cap, list))
         == sent + [Packet(f, key, list[..Min(|list|, Capacity(f, key, cap))])] + LaterPackets(f, key, cap, list)
  {
    var n := Min(|list|, Capacity(f, key, cap));
    var packet := Packet(f, key, list[..n]);
    if n == 0 || n == |list| {
      PacketsConcat(f, key, list[..n], []);
      assert [list[..n]] + [] == [list[..n]];
    } else {
      PacketsConcat(f, key, list[..n], Pages(f, key, cap, list[n..]));
    }
    Assoc(sent, [packet], LaterPackets(f, key, cap, list));
  }

  // What arrives

  function Flatten(pages: seq<seq<Addr>>): seq<Addr> {
    if pages == [] then [] else pages[0] + Flatten(pages[1..])
  }

  /** What a receiver makes of a packet: the addresses and the key. */
  function ReadPage(f: Family, packet: bytes): Result<(seq<Addr>, Option<u32>), Error> {
    var (inner, key) :- Decode(packet);
    Ok((Iterate(f, inner), key))
  }

  /** An address in front of a page without a key that looks like one: for IPv4, a loopback address whose port
      has the low byte 8. */
  predicate LooksLikeKey(page: seq<Addr>) {
    page != [] && |page[0].ip| >= 4 && AddressBytes(page[0])[0] == KEY_START && AddressBytes(page[0])[5] == KEY_END
  }

  lemma InnerStart(f: Family, page: seq<Addr>)
    requires AllOf(f, page)
    ensures var s := ListBytes(page) + EndMarker(f);
            |s| >= 6 && (s[0] == KEY_START && s[5] == KEY_END <==> LooksLikeKey(page))
  {
    if page != [] {
      assert page[0] in page;
      var a, rest := AddressBytes(page[0]), ListBytes(page[1..]) + EndMarker(f);
      Assoc(a, ListBytes(page[1..]), EndMarker(f));
      assert (a + rest)[0] == a[0] && (a + rest)[5] == a[5];
    } else {
      assert (ListBytes(page) + EndMarker(f))[0] == 0;
    }
  }

  lemma DecodeWithKey(k: u32, inner: bytes)
    ensures Decode(Prefix(Some(k)) + inner) == Ok((inner, Some(k)))
  {
    var key := KeyBytes(Some(k));
    Assoc(HEADER, key, inner);
    ReadExpectOf(HEADER, key + inner);
    var s := key + inner;
    Widths();
    FromLeInvertsToLe(k, 4);
    assert s[1..5] == ToLe(k, 4) && s[6..] == inner;
  }

  /** A packet reads back as the page and key it was made of, unless it has no key and starts with an address
      that looks like one. */
  lemma PageReadsBackIff(f: Family, key: Option<u32>, page: seq<Addr>)
    requires AllOf(f, page)
    ensures ReadPage(f, Packet(f, key, page)) == Ok((page, key)) <==> key.Some? || !LooksLikeKey(page)
  {
    var inner := ListBytes(page) + EndMarker(f);
    IterateInvertsList(f, page);
    InnerStart(f, page);
    if key.Some? {
      DecodeWithKey(key.value, inner);
    } else {
      assert Prefix(key) == HEADER;
      ReadExpectOf(HEADER, inner);
    }
  }

  /** Then, for IPv4, the key is invented and exactly the first address is lost. */
  lemma MisreadPageLosesOne(page: seq<Addr>)
    requires AllOf(V4, page) && LooksLikeKey(page)
    ensures var r := ReadPage(V4, Packet(V4, None, page)); r.Ok? && r.value.0 == page[1..] && r.value.1.Some?
  {
    var rest := ListBytes(page[1..]) + EndMarker(V4);
    assert page[0] in page;
    IterateInvertsList(V4, page[1..]);
    InnerStart(V4, page);
    Assoc(AddressBytes(page[0]), ListBytes(page[1..]), EndMarker(V4));
    AddressRoundTrip(V4, page[0], rest);
    assert Prefix(None) == HEADER;
    ReadExpectOf(HEADER, AddressBytes(page[0]) + rest);
  }

  /** What an IPv6 page turns into when its first six bytes are taken for a key: each address is made of the end
      of one record and the start of the next, or of the end marker. */
  function Shifted(page: seq<Addr>): seq<Addr>
    requires AllOf(V6, page)
  {
    if page == [] then [] else
    assert page[0] in page;
    [AddressOf(V6, AddressBytes(page[0])[6..] + NextRecord(page)[..6])] + Shifted(page[1..])
  }

  /** The record behind the first one. */
  function NextRecord(page: seq<Addr>): (r: bytes)
    requires page != [] && AllOf(V6, page)
    ensures |r| == 18
  {
    if |page| == 1 then EndMarker(V6) else
    assert page[1] in page;
    AddressBytes(page[1])
  }

  lemma ShiftOne(a: bytes, rest: bytes)
    requires |a| == 18 && |rest| >= 18
    ensures var s := (a + rest)[6..]; s[18..] == rest[6..] && AddressOf(V6, s) == AddressOf(V6, a[6..] + rest[..6])
  {
    var s, t := (a + rest)[6..], a[6..] + rest[..6];
    assert s[..18] == t;
    assert s[..16] == t[..16] && s[16] == t[16] && s[17] == t[17];
  }

  lemma {:induction false} IterateShifted(page: seq<Addr>)
    requires AllOf(V6, page)
    ensures Iterate(V6, (ListBytes(page) + EndMarker(V6))[6..]) == Shifted(page)
    decreases |page|
  {
    if page != [] {
      assert page[0] in page;
      var a, rest := AddressBytes(page[0]), ListBytes(page[1..]) + EndMarker(V6);
      Assoc(a, ListBytes(page[1..]), EndMarker(V6));
      StartsWithNext(page);
      ShiftOne(a, rest);
      IterateShifted(page[1..]);
      IterateShiftedLength(page[1..]);
    }
  }

  lemma StartsWithNext(page: seq<Addr>)
    requires page != [] && AllOf(V6, page)
    ensures var rest := ListBytes(page[1..]) + EndMarker(V6); |rest| >= 18 && rest[..6] == NextRecord(page)[..6]
  {
    if |page| > 1 {
      assert page[1] in page;
      Assoc(AddressBytes(page[1]), ListBytes(page[2..]), EndMarker(V6));
      assert page[1..][1..] == page[2..];
    }
  }

  lemma IterateShiftedLength(page: seq<Addr>)
    requires AllOf(V6, page)
    ensures |(ListBytes(page) + EndMarker(V6))[6..]| == 18 * |page| + 12
  {
    IterateInvertsList(V6, page);
  }

  /** For IPv6 no address is lost, but every one of them is shifted by six bytes. */
  lemma MisreadPageShiftsAll(page: seq<Addr>)
    requires AllOf(V6, page) && LooksLikeKey(page)
    ensures var r := ReadPage(V6, Packet(V6, None, page)); r.Ok? && r.value.0 == Shifted(page) && r.value.1.Some?
    ensures |Shifted(page)| == |page|
  {
    var s := ListBytes(page) + EndMarker(V6);
    InnerStart(V6, page);
    assert Prefix(None) == HEADER;
    ReadExpectOf(HEADER, s);
    IterateShifted(page);
    ShiftedKeepsLength(page);
  }

  lemma {:induction false} ShiftedKeepsLength(page: seq<Addr>)
    requires AllOf(V6, page)
    ensures |Shifted(page)| == |page|
  {
    if page != [] {
      ShiftedKeepsLength(page[1..]);
    }
  }

  lemma MisreadExample()
    ensures var a := Addr([127, 0, 0, 1], 27144);
            ReadPage(V4, Packet(V4, None, [a])).Ok? && ReadPage(V4, Packet(V4, None, [a])).value.0 == []
  {
    var a := Addr([127, 0, 0, 1], 27144);
    assert AddressBytes(a)[5] == 8;
    MisreadPageLosesOne([a]);
    assert [a][1..] == [];
  }

  lemma CapacityIsPositive(f: Family, key: Option<u32>, cap: nat)
    ensures Capacity(f, key, cap) > 0 <==> MakesProgress(f, key, cap)
  {
  }

  /** The pages hold the list, in order; all but the last are full, and the last is empty only when the list is. */
  lemma {:induction false} PagesAreExact(f: Family, key: Option<u32>, cap: nat, list: seq<Addr>)
    requires MakesProgress(f, key, cap) || list == []
    ensures var pages := Pages(f, key, cap, list);
            && Flatten(pages) == list && pages != []
            && (forall i | 0 <= i < |pages| - 1 :: |pages[i]| == Capacity(f, key, cap))
            && |pages[|pages| - 1]| <= Capacity(f, key, cap)
            && (list != [] ==> pages[|pages| - 1] != [])
    decreases |list|
  {
    CapacityIsPositive(f, key, cap);
    var pages, n := Pages(f, key, cap, list), Min(|list|, Capacity(f, key, cap));
    if n == |list| {
      assert Flatten([]) == [] && list[..n] + [] == list;
    } else {
      PagesAreExact(f, key, cap, list[n..]);
      assert pages[0] == list[..n] && pages[1..] == Pages(f, key, cap, list[n..]);
      assert forall i | 1 <= i < |pages| :: pages[i] == pages[1..][i - 1];
      assert list == list[..n] + list[n..];
    }
  }

  lemma {:induction false} PagesAreOf(f: Family, key: Option<u32>, cap: nat, list: seq<Addr>)
    requires AllOf(f, list)
    ensures forall page | page in Pages(f, key, cap, list) :: AllOf(f, page)
    decreases |list|
  {
    var n := Min(|list|, Capacity(f, key, cap));
    if n != 0 && n != |list| {
      PagesAreOf(f, key, cap, list[n..]);
    }
  }

  /** Main result: what is sent reads back as the whole list with the same key, page by page, exactly when a
      key is sent along or no page starts with an address that looks like one. */
  lemma SentListReadsBackIff(f: Family, key: Option<u32>, cap: nat, list: seq<Addr>)
    requires AllOf(f, list) && (MakesProgress(f, key, cap) || list == [])
    ensures var pages := Pages(f, key, cap, list);
            var sent := Packets(f, key, pages);
            && Flatten(pages) == list && |sent| == |pages|
            && ((forall i | 0 <= i < |sent| :: ReadPage(f, sent[i]) == Ok((pages[i], key)))
                <==> key.Some? || forall page | page in pages :: !LooksLikeKey(page))
  {
    PagesAreExact(f, key, cap, list);
    PagesAreOf(f, key, cap, list);
    var pages := Pages(f, key, cap, list);
    var sent := Packets(f, key, pages);
    forall i | 0 <= i < |sent|
      ensures ReadPage(f, sent[i]) == Ok((pages[i], key)) <==> key.Some? || !LooksLikeKey(pages[i])
    {
      assert pages[i] in pages;
      PageReadsBackIff(f, key, pages[i]);
    }
  }

  /** Why progress is needed: a buffer in between takes no address at all, so the rest never gets smaller. */
  lemma NoProgressForever(f: Family, key: Option<u32>, cap: nat, list: seq<Addr>)
    requires |Prefix(key)| + f.Size() <= cap
    ensures Min(|list|, Capacity(f, key, cap)) == 0 <==> list == [] || !MakesProgress(f, key, cap)
  {
    CapacityIsPositive(f, key, cap);
  }

  /** The buffers that the master really uses make progress, and this is how many addresses they take. */
  lemma RealBuffers(key: Option<u32>)
    ensures MakesProgress(V4, key, 512) && MakesProgress(V6, key, 1280)
    ensures Capacity(V4, key, 512) == if key.Some? then 82 else 83
    ensures Capacity(V6, key, 1280) == 69
  {
  }
}
