/** Candidate wallpaper records and the per-slot source chains of the
    `fetch-bing-wallpapers` and `preload-next-page` handlers.

    Every upstream request is an abstract outcome, and `Date.now()` and
    `Math.random()` are parameters, so a slot's chain is a function of its
    inputs. */
module Candidates {
  import opened Text

  /** Slots per page: both handlers build `Array(8)` slot promises. */
  const SLOTS: nat := 8

  /** The result of one `fetch` of a random-image endpoint: `response.ok`
      with the final `response.url`, or anything else (a status that is not
      ok, a network error, the 2-second abort). */
  datatype Upstream = Ok(url: string) | Failed

  /** `Math.floor(Math.random() * 1000)`. */
  type Draw = r: nat | r < 1000

  /** Where a record comes from: the two nguaduot.cn endpoints, the Picsum
      branch of a chain, and the two rescue paths that also use Picsum. */
  datatype Origin = Bizhihui | Snake | Picsum | Fallback | Emergency

  /** Which handler builds the record: the preload handler marks its ids. */
  datatype Path = Fetch | Preload

  /** The object literal every branch returns. `url` is the full-size image. */
  datatype Candidate = Candidate(thumb: string, url: string, id: string, title: string, copyright: string)

  /** Inputs of one slot: whether setting up the request timer throws,
      the two upstream outcomes, the random draw and the `Date.now()`
      reading taken while the record is built. */
  datatype SlotInput = SlotInput(setupFault: bool, bizhihui: Upstream, snake: Upstream, draw: Draw, now: int)

  /** Inputs of a rescue record built outside a slot's chain. */
  datatype Rescue = Rescue(draw: Draw, now: int)

  /** What one slot's chain did: the endpoints it requested, in order, the
      origin of its record, and the record. */
  datatype SlotRun = SlotRun(requested: seq<Origin>, origin: Origin, candidate: Candidate)

  function Tag(origin: Origin, path: Path): (t: string)
    ensures |t| >= 5
    ensures t[0] == match origin
                    case Bizhihui => 'b' case Snake => 's' case Picsum => 'p'
                    case Fallback => 'f' case Emergency => 'e'
  {
    var base := match origin
      case Bizhihui => "bizhihui"
      case Snake => "snake"
      case Picsum => "picsum"
      case Fallback => "fallback"
      case Emergency => "emergency";
    if path == Preload then base + "-preload" else base
  }

  /** Offset added to the random draw to pick a Picsum image id. */
  function ImageBase(origin: Origin): nat {
    match origin
    case Fallback => 2000
    case Emergency => 3000
    case _ => 1000
  }

  /** The Picsum image id a record of this origin is drawn from; the
      upstream endpoints' records have none, written 0. */
  function ImageId(origin: Origin, draw: Draw): nat {
    if origin == Bizhihui || origin == Snake then 0 else draw + ImageBase(origin)
  }

  /** The record id. Picsum records carry the image id; the others the
      `Date.now()` reading. */
  function SlotId(origin: Origin, path: Path, page: int, index: nat, imageId: nat, now: int): (id: string)
    ensures |id| > 0 && id[0] == Tag(origin, path)[0]
  {
    if origin == Picsum then
      Dashed(Tag(origin, path), NatToString(imageId), IntToString(page), NatToString(index))
    else
      Dashed(Tag(origin, path), IntToString(page), NatToString(index), IntToString(now))
  }

  /** Four fields joined by dashes, the layout of every id. */
  function Dashed(a: string, b: string, c: string, d: string): string {
    a + "-" + b + "-" + c + "-" + d
  }

  function TitlePrefix(origin: Origin, path: Path): string {
    if path == Preload then "壁纸 "
    else match origin
      case Picsum => "备用壁纸 "
      case Fallback => "应急壁纸 "
      case Emergency => "应急壁纸 "
      case _ => "壁纸 "
  }

  /** The title numbers slots from 1. */
  function Title(origin: Origin, path: Path, page: int, index: nat): (t: string)
    ensures |t| > 0
    ensures index + 1 < 10 ==> t[|t| - 1] == DigitChar(index + 1)
  {
    TitlePrefix(origin, path) + IntToString(page) + "-" + NatToString(index + 1)
  }

  function Copyright(origin: Origin): string {
    match origin
    case Bizhihui => "nguaduot.cn"
    case Snake => "nguaduot.cn (snake)"
    case _ => "Picsum Photos"
  }

  const PICSUM_PREFIX := "https://picsum.photos/id/"
  const THUMB_SIZE := "300/225"
  const FULL_SIZE := "2560/1440"

  /** `https://picsum.photos/id/<imageId>/`, the part before the size. */
  function PicsumBase(imageId: nat): string {
    PICSUM_PREFIX + NatToString(imageId) + "/"
  }

  function PicsumUrl(imageId: nat, size: string, query: string): string {
    PicsumBase(imageId) + size + ("?random=" + query)
  }

  lemma PicsumUrlPrefix(imageId: nat, size: string, query: string)
    ensures PICSUM_PREFIX <= PicsumUrl(imageId, size, query)
  {
    var rest := NatToString(imageId) + "/" + size + ("?random=" + query);
    assert PicsumUrl(imageId, size, query) == PICSUM_PREFIX + rest;
  }

  /** A record for an endpoint that answered ok: both URLs are the final
      response URL. */
  function UpstreamCandidate(origin: Origin, path: Path, page: int, index: nat, url: string, now: int): (c: Candidate)
    requires origin == Bizhihui || origin == Snake
    ensures c.thumb == url && c.url == url
  {
    Candidate(url, url, SlotId(origin, path, page, index, 0, now),
              Title(origin, path, page, index), Copyright(origin))
  }

  /** The Picsum branch of a chain: one image id and one timestamp
      (`Date.now() + index`) shared by both URLs. */
  function PicsumCandidate(path: Path, page: int, index: nat, draw: Draw, now: int): (c: Candidate)
    ensures PICSUM_PREFIX <= c.thumb && PICSUM_PREFIX <= c.url
    ensures c.copyright == "Picsum Photos"
  {
    var imageId := ImageId(Picsum, draw);
    var query := IntToString(now + index);
    PicsumUrlPrefix(imageId, THUMB_SIZE, query);
    PicsumUrlPrefix(imageId, FULL_SIZE, query);
    Candidate(PicsumUrl(imageId, THUMB_SIZE, query), PicsumUrl(imageId, FULL_SIZE, query),
              SlotId(Picsum, path, page, index, imageId, now),
              Title(Picsum, path, page, index), Copyright(Picsum))
  }

  /** A rescue record: a rejected slot's replacement, the handler's emergency
      page, or the preload slot's outer catch. */
  function RescueCandidate(origin: Origin, path: Path, page: int, index: nat, draw: Draw, now: int): (c: Candidate)
    requires origin == Fallback || origin == Emergency
    ensures c.copyright == "Picsum Photos"
  {
    var imageId := draw + ImageBase(origin);
    var query := IntToString(now) + "-" + NatToString(index);
    Candidate(PicsumUrl(imageId, THUMB_SIZE, query), PicsumUrl(imageId, FULL_SIZE, query),
              SlotId(origin, path, page, index, imageId, now),
              Title(origin, path, page, index), Copyright(origin))
  }

  /** The fetch handler's slot: bizhihui, then snake, then Picsum, which
      cannot fail. */
  function FetchChain(page: int, index: nat, input: SlotInput): (r: SlotRun)
    ensures r.requested <= [Bizhihui, Snake]
    ensures (Snake in r.requested) <==> !input.setupFault && input.bizhihui.Failed?
    ensures r.origin == Bizhihui <==> !input.setupFault && input.bizhihui.Ok?
    ensures r.origin == Snake <==> !input.setupFault && input.bizhihui.Failed? && input.snake.Ok?
    ensures r.origin == Picsum <==>
              input.setupFault || (input.bizhihui.Failed? && input.snake.Failed?)
    ensures r.origin in r.requested || r.origin == Picsum
    ensures r.candidate.id == SlotId(r.origin, Fetch, page, index, ImageId(r.origin, input.draw), input.now)
    ensures r.candidate.title == Title(r.origin, Fetch, page, index)
  {
    if input.setupFault then
      SlotRun([], Picsum, PicsumCandidate(Fetch, page, index, input.draw, input.now))
    else if input.bizhihui.Ok? then
      SlotRun([Bizhihui], Bizhihui,
              UpstreamCandidate(Bizhihui, Fetch, page, index, input.bizhihui.url, input.now))
    else if input.snake.Ok? then
      SlotRun([Bizhihui, Snake], Snake,
              UpstreamCandidate(Snake, Fetch, page, index, input.snake.url, input.now))
    else
      SlotRun([Bizhihui, Snake], Picsum, PicsumCandidate(Fetch, page, index, input.draw, input.now))
  }

  /** The preload handler's slot: bizhihui, then Picsum; a throw outside the
      request lands in the outer catch, which builds a fallback record. */
  function PreloadChain(page: int, index: nat, input: SlotInput): (r: SlotRun)
    ensures r.requested == if input.setupFault then [] else [Bizhihui]
    ensures r.origin == Bizhihui <==> !input.setupFault && input.bizhihui.Ok?
    ensures r.origin == Picsum <==> !input.setupFault && input.bizhihui.Failed?
    ensures r.origin == Fallback <==> input.setupFault
    ensures r.candidate.id == SlotId(r.origin, Preload, page, index, ImageId(r.origin, input.draw), input.now)
    ensures r.candidate.title == Title(r.origin, Preload, page, index)
  {
    if input.setupFault then
      SlotRun([], Fallback, RescueCandidate(Fallback, Preload, page, index, input.draw, input.now))
    else if input.bizhihui.Ok? then
      SlotRun([Bizhihui], Bizhihui,
              UpstreamCandidate(Bizhihui, Preload, page, index, input.bizhihui.url, input.now))
    else
      SlotRun([Bizhihui], Picsum, PicsumCandidate(Preload, page, index, input.draw, input.now))
  }

  // ---------------------------------------------------------------------
  // Properties of the records

  /** Where the slot number sits in an id: the last character of a Picsum
      id, and right after the page in every other id. */
  function SlotDigitPos(origin: Origin, path: Path, page: int): nat {
    |Tag(origin, path)| + 1 + |IntToString(page)| + 1
  }

  lemma SlotIdShape(origin: Origin, path: Path, page: int, index: nat, imageId: nat, now: int)
    requires index < 10
    ensures var id := SlotId(origin, path, page, index, imageId, now);
            if origin == Picsum then id[|id| - 1] == DigitChar(index)
            else SlotDigitPos(origin, path, page) < |id| &&
                 id[SlotDigitPos(origin, path, page)] == DigitChar(index)
  {
    var tag := Tag(origin, path);
    var p := IntToString(page);
    var n := NatToString(index);
    assert n == [DigitChar(index)];
    if origin == Picsum {
      var id := Dashed(tag, NatToString(imageId), p, n);
      DashedFields(tag, NatToString(imageId), p, n);
      assert id[|id| - 1] == id[|id| - 1..][0];
    } else {
      var id := Dashed(tag, p, n, IntToString(now));
      DashedFields(tag, p, n, IntToString(now));
      var at := SlotDigitPos(origin, path, page);
      assert at == |tag| + 1 + |p| + 1;
      assert id[at] == id[at..at + 1][0];
    }
  }

  /** The four fields of an id joined by dashes can be read back at their
      offsets. */
  lemma DashedFields(a: string, b: string, c: string, d: string)
    ensures var s := Dashed(a, b, c, d);
            var i := |a| + 1;
            var j := i + |b| + 1;
            var k := j + |c| + 1;
            && |s| == k + |d|
            && s[..|a|] == a && s[|a|] == '-'
            && s[i..i + |b|] == b && s[i + |b|] == '-'
            && s[j..j + |c|] == c && s[j + |c|] == '-'
            && s[k..] == d
  {
    var s := Dashed(a, b, c, d);
    var head := a + "-" + b + "-";
    assert head == (a + "-") + b + "-";
    Sandwich(a, "-", b + "-" + c + "-" + d);
    assert s == a + "-" + (b + "-" + c + "-" + d);
    Sandwich(a + "-", b, "-" + c + "-" + d);
    assert s == (a + "-") + b + ("-" + c + "-" + d);
    Sandwich(head, c, "-" + d);
    assert s == head + c + ("-" + d);
  }

  /** A Picsum id reads back as its tag followed by the dash-separated
      image id, page and slot number. */
  lemma PicsumIdFields(path: Path, page: int, index: nat, imageId: nat, now: int)
    ensures var id := SlotId(Picsum, path, page, index, imageId, now);
            var tag := Tag(Picsum, path);
            var m := NatToString(imageId);
            var p := IntToString(page);
            var at := |tag| + 1 + |m| + 1;
            && tag <= id && id[|tag|] == '-'
            && id[|tag| + 1..|tag| + 1 + |m|] == m && id[at - 1] == '-'
            && id[at..at + |p|] == p && id[at + |p|] == '-'
            && id[at + |p| + 1..] == NatToString(index)
  {
    var tag := Tag(Picsum, path);
    var m := NatToString(imageId);
    var p := IntToString(page);
    var n := NatToString(index);
    DashedFields(tag, m, p, n);
  }

  /** Any other id reads back as its tag followed by the dash-separated
      page, slot number and timestamp. */
  lemma StampedIdFields(origin: Origin, path: Path, page: int, index: nat, imageId: nat, now: int)
    requires origin != Picsum
    ensures var id := SlotId(origin, path, page, index, imageId, now);
            var tag := Tag(origin, path);
            var p := IntToString(page);
            var n := NatToString(index);
            var at := |tag| + 1;
            && tag <= id && id[|tag|] == '-'
            && id[at..at + |p|] == p && id[at + |p|] == '-'
            && id[at + |p| + 1..at + |p| + 1 + |n|] == n && id[at + |p| + 1 + |n|] == '-'
            && id[at + |p| + 1 + |n| + 1..] == IntToString(now)
  {
    var tag := Tag(origin, path);
    var p := IntToString(page);
    var n := NatToString(index);
    var t := IntToString(now);
    DashedFields(tag, p, n, t);
  }

  /** Ids of two records from different slots of the same page and handler
      differ, whatever their origins, image ids and timestamps. */
  lemma SlotIdsDistinct(o1: Origin, o2: Origin, path: Path, page: int, i: nat, j: nat,
                        n1: nat, n2: nat, t1: int, t2: int)
    requires i < 10 && j < 10 && i != j
    ensures SlotId(o1, path, page, i, n1, t1) != SlotId(o2, path, page, j, n2, t2)
  {
    var a := SlotId(o1, path, page, i, n1, t1);
    var b := SlotId(o2, path, page, j, n2, t2);
    if o1 != o2 {
      assert a[0] != b[0];
    } else {
      SlotIdShape(o1, path, page, i, n1, t1);
      SlotIdShape(o2, path, page, j, n2, t2);
      if o1 == Picsum {
        assert a[|a| - 1] != b[|b| - 1];
      } else {
        assert a[SlotDigitPos(o1, path, page)] != b[SlotDigitPos(o1, path, page)];
      }
    }
  }

  lemma Sandwich(front: string, mid: string, back: string)
    ensures var s := front + mid + back;
            && s[..|front|] == front
            && s[|front|..|front| + |mid|] == mid
            && s[|front| + |mid|..] == back
  {
  }

  /** A Picsum record's two URLs share their image id and timestamp and
      differ only in the size segment. */
  lemma PicsumUrlsDifferOnlyInSize(path: Path, page: int, index: nat, draw: Draw, now: int)
    ensures var c := PicsumCandidate(path, page, index, draw, now);
            var k := |PicsumBase(draw + 1000)|;
            && k + |THUMB_SIZE| <= |c.thumb| && k + |FULL_SIZE| <= |c.url|
            && c.thumb[..k] == c.url[..k]
            && c.thumb[k..k + |THUMB_SIZE|] == THUMB_SIZE
            && c.url[k..k + |FULL_SIZE|] == FULL_SIZE
            && c.thumb[k + |THUMB_SIZE|..] == c.url[k + |FULL_SIZE|..]
  {
    var c := PicsumCandidate(path, page, index, draw, now);
    var front := PicsumBase(draw + 1000);
    var back := "?random=" + IntToString(now + index);
    Sandwich(front, THUMB_SIZE, back);
    Sandwich(front, FULL_SIZE, back);
  }

  /** Once bizhihui answers, neither snake nor the random draw matters. */
  lemma FetchChainStopsAtBizhihui(page: int, index: nat, input: SlotInput, snake: Upstream, draw: Draw)
    requires !input.setupFault && input.bizhihui.Ok?
    ensures FetchChain(page, index, input) == FetchChain(page, index, input.(snake := snake, draw := draw))
    ensures FetchChain(page, index, input).candidate.url == input.bizhihui.url
  {
  }

  /** Once snake answers, the random draw does not matter. */
  lemma FetchChainStopsAtSnake(page: int, index: nat, input: SlotInput, draw: Draw)
    requires !input.setupFault && input.bizhihui.Failed? && input.snake.Ok?
    ensures FetchChain(page, index, input) == FetchChain(page, index, input.(draw := draw))
    ensures FetchChain(page, index, input).candidate.url == input.snake.url
  {
  }
}
