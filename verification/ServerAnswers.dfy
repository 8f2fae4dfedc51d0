/** From the servers that are to be listed to the packets that list them, and back. */
module ServerAnswers {
  import opened Prelude
  import opened Types
  import opened ServerList

  predicate NoRepeats(list: seq<Addr>) {
    forall i, j | 0 <= i < j < |list| :: list[i] != list[j]
  }

  /** The packets are those of some list of the servers, in whatever order, that names each of them once. */
  ghost predicate Carries(f: Family, key: Option<u32>, listed: set<Addr>, packets: seq<bytes>) {
    exists list ::
      IsListOf(list, listed) && packets == Packets(f, key, Pages(f, key, f.BufferSize(), list))
  }

  predicate IsListOf(list: seq<Addr>, listed: set<Addr>) {
    NoRepeats(list) && listed == set a | a in list
  }

  /** What a client makes of the packets: the addresses of all that it can read. */
  function Received(f: Family, packets: seq<bytes>): seq<Addr> {
    if packets == [] then [] else
    (var page := ReadPage(f, packets[0]); if page.Ok? then page.value.0 else []) + Received(f, packets[1..])
  }

  lemma ReceivedFirst(f: Family, packets: seq<bytes>, page: seq<Addr>, key: Option<u32>)
    requires packets != [] && ReadPage(f, packets[0]) == Ok((page, key))
    ensures Received(f, packets) == page + Received(f, packets[1..])
  {
  }

  lemma PacketsFirst(f: Family, key: Option<u32>, pages: seq<seq<Addr>>)
    requires pages != []
    ensures var packets := Packets(f, key, pages);
            packets != [] && packets[0] == Packet(f, key, pages[0]) && packets[1..] == Packets(f, key, pages[1..])
  {
  }

  lemma {:induction false} ReceivedPages(f: Family, key: Option<u32>, pages: seq<seq<Addr>>)
    requires forall i | 0 <= i < |pages| :: ReadPage(f, Packet(f, key, pages[i])) == Ok((pages[i], key))
    ensures Received(f, Packets(f, key, pages)) == Flatten(pages)
  {
    if pages != [] {
      PacketsFirst(f, key, pages);
      ReceivedFirst(f, Packets(f, key, pages), pages[0], key);
      ReceivedPages(f, key, pages[1..]);
    }
  }

  lemma {:induction false} InPageInList(pages: seq<seq<Addr>>, page: seq<Addr>)
    requires page in pages
    ensures forall a | a in page :: a in Flatten(pages)
  {
    if page != pages[0] {
      assert page in pages[1..];
      InPageInList(pages[1..], page);
    }
  }

  /** An address that cannot be taken for a key, as long as it is not the loopback address of IPv4 or an IPv6
      address of a certain look. */
  predicate SafeStart(a: Addr) {
    !LooksLikeKey([a])
  }

  /** Every page of such a list reads back. */
  lemma PagesArrive(f: Family, key: Option<u32>, list: seq<Addr>)
    requires AllOf(f, list) && (key.Some? || forall a | a in list :: SafeStart(a))
    ensures var pages := Pages(f, key, f.BufferSize(), list);
            && Flatten(pages) == list
            && forall page | page in pages :: ReadPage(f, Packet(f, key, page)) == Ok((page, key))
  {
    var cap := f.BufferSize();
    RealBuffers(key);
    PagesAreExact(f, key, cap, list);
    PagesAreOf(f, key, cap, list);
    forall page | page in Pages(f, key, cap, list)
      ensures ReadPage(f, Packet(f, key, page)) == Ok((page, key))
    {
      InPageInList(Pages(f, key, cap, list), page);
      assert page != [] ==> page[0] in page && page[0] in list;
      PageReadsBackIff(f, key, page);
    }
  }

  /** Main result: an answer arrives as exactly the servers that were listed, each of them once, if the client
      sent a key or no server looks like one. */
  lemma AnswerArrives(f: Family, key: Option<u32>, listed: set<Addr>, packets: seq<bytes>)
    requires Carries(f, key, listed, packets) && forall a | a in listed :: f.Fits(a)
    requires key.Some? || forall a | a in listed :: SafeStart(a)
    ensures IsListOf(Received(f, packets), listed)
    ensures forall packet | packet in packets :: ReadPage(f, packet).Ok? && ReadPage(f, packet).value.1 == key
  {
    var list :| IsListOf(list, listed) && packets == Packets(f, key, Pages(f, key, f.BufferSize(), list));
    PagesArrive(f, key, list);
    ReceivedPages(f, key, Pages(f, key, f.BufferSize(), list));
  }
}
