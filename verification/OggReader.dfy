/** An independent reader: pages off the wire, framing checks, and packets out of lacing values
  * (RFC 3533, sections 5 and 6). */
module OggReader {
  import opened Bytes
  import opened OggPage

  function ParsePages(data: bytes): Option<seq<Page>>
    decreases |data|
  {
    if data == [] then Some([])
    else
      match ParsePage(data)
      case None => None
      case Some((page, rest)) =>
        match ParsePages(rest)
        case None => None
        case Some(pages) => Some([page] + pages)
  }

  /** One logical stream: consecutive sequence numbers, one serial, the stream flags on the outer pages only. */
  predicate Framed(pages: seq<Page>) {
    forall i :: 0 <= i < |pages| ==>
      && pages[i].sequence == i
      && pages[i].serial == pages[0].serial
      && pages[i].first == (i == 0)
      && pages[i].last == (i == |pages| - 1)
  }

  datatype Assembly = Assembly(packets: seq<bytes>, pending: Option<bytes>)

  function Started(pending: Option<bytes>): bytes {
    match pending case None => [] case Some(begun) => begun
  }

  /** A segment shorter than 255 bytes ends a packet; a full one leaves it pending. */
  function TakeBody(lacing: bytes, body: bytes, pending: Option<bytes>): Assembly
    requires Sum(lacing) == |body|
    decreases |lacing|
  {
    if lacing == [] then Assembly([], pending)
    else
      var packet := Started(pending) + body[..lacing[0]];
      if lacing[0] == MAX_LACING_VALUE then TakeBody(lacing[1..], body[lacing[0]..], Some(packet))
      else
        var later := TakeBody(lacing[1..], body[lacing[0]..], None);
        Assembly([packet] + later.packets, later.pending)
  }

  /** A page must say it continues a packet exactly when one is pending. */
  function Reassemble(pages: seq<Page>, pending: Option<bytes>): Option<Assembly> {
    if pages == [] then Some(Assembly([], pending))
    else if pages[0].continued != pending.Some? || Sum(pages[0].lacing) != |pages[0].body| then None
    else
      var here := TakeBody(pages[0].lacing, pages[0].body, pending);
      match Reassemble(pages[1..], here.pending)
      case None => None
      case Some(later) => Some(Assembly(here.packets + later.packets, later.pending))
  }

  /** The packets of a complete stream, if `data` is one. */
  function Demux(data: bytes): Option<seq<bytes>> {
    match ParsePages(data)
    case None => None
    case Some(pages) =>
      if pages == [] || !Framed(pages) then None
      else
        match Reassemble(pages, None)
        case Some(Assembly(packets, None)) => Some(packets)
        case _ => None
  }

  lemma {:induction false} ParseWires(pages: seq<Page>)
    requires forall i :: 0 <= i < |pages| ==> pages[i].WellFormed()
    ensures ParsePages(Join(Wires(pages))) == Some(pages)
  {
    hide ParsePage, Page.Wire, Page.WellFormed;
    if pages != [] {
      var rest := Join(Wires(pages[1..]));
      assert Wires(pages)[1..] == Wires(pages[1..]);
      assert Join(Wires(pages)) == pages[0].Wire() + rest;
      ParseWire(pages[0], rest);
      WireNotEmpty(pages[0]);
      ParseWires(pages[1..]);
      assert pages == [pages[0]] + pages[1..];
    }
  }

  lemma WireNotEmpty(page: Page)
    ensures page.Wire() != []
  {}

  lemma {:induction false} ReassembleAppend(a: seq<Page>, b: seq<Page>, pending: Option<bytes>)
    requires Reassemble(a, pending).Some?
    requires Reassemble(b, Reassemble(a, pending).value.pending).Some?
    ensures
      var left := Reassemble(a, pending).value;
      var right := Reassemble(b, left.pending).value;
      Reassemble(a + b, pending) == Some(Assembly(left.packets + right.packets, right.pending))
  {
    if a == [] {
      var right := Reassemble(b, pending).value;
      assert a + b == b && [] + right.packets == right.packets;
    } else {
      assert (a + b)[0] == a[0] && (a + b)[1..] == a[1..] + b;
      var here := TakeBody(a[0].lacing, a[0].body, pending);
      ReassembleAppend(a[1..], b, here.pending);
      var left := Reassemble(a[1..], here.pending).value;
      ConcatAssociates(here.packets, left.packets, Reassemble(b, left.pending).value.packets);
    }
  }
}
