/** The image gallery of the graphical client: a list of image records
    fetched for a tag, shown in batches (main.py `_show_batch`,
    `_setup_navigation_buttons`, `_go_back_batch`, `_go_next_batch`), and
    the background worker that turns the queued URLs of one batch into
    image buttons or notices (main.py `_process_image_queue`). */
module Gallery {
  import opened Wrappers
  import opened Text
  import opened Images

  /** Batches hold ten images unless a caller asks otherwise. */
  const DefaultBatch := 10

  /** One record of the gallery list; `url` is absent when the record has
      none. */
  datatype ImageInfo = ImageInfo(url: Option<string>)

  /** The gallery state: the fetched records and the first index shown. */
  datatype Cursor = Cursor(images: seq<ImageInfo>, index: nat)

  function Min(a: int, b: int): int {
    if a <= b then a else b
  }

  /** The end of the batch starting at `index`. */
  function BatchEnd(c: Cursor, size: nat): nat {
    if c.index + size <= |c.images| then c.index + size
    else if c.index <= |c.images| then |c.images|
    else c.index
  }

  /** The records `images[index : min(index + size, len)]` (empty when the
      index is past the end, as a Python slice is). */
  function Window(c: Cursor, size: nat): (w: seq<ImageInfo>)
    ensures |w| <= size
    ensures c.index <= |c.images| ==> |w| == Min(size, |c.images| - c.index)
    ensures forall i :: 0 <= i < |w| ==> c.index + i < |c.images| && w[i] == c.images[c.index + i]
  {
    if c.index <= |c.images| then c.images[c.index..BatchEnd(c, size)] else []
  }

  /** The truthy URLs among some records, in order. */
  function Urls(infos: seq<ImageInfo>): (r: seq<string>)
    ensures |r| <= |infos|
    ensures forall u :: u in r <==> exists i :: 0 <= i < |infos| && Truthy(infos[i].url) && infos[i].url.value == u
  {
    if |infos| == 0 then []
    else
      var rest := Urls(infos[1..]);
      assert forall i :: 1 <= i < |infos| ==> infos[i] == infos[1..][i - 1];
      if Truthy(infos[0].url) then [infos[0].url.value] + rest else rest
  }

  lemma {:induction false} UrlsAppend(a: seq<ImageInfo>, b: seq<ImageInfo>)
    ensures Urls(a + b) == Urls(a) + Urls(b)
    decreases |a|
  {
    if |a| == 0 {
      assert a + b == b;
    } else {
      assert (a + b)[0] == a[0];
      assert (a + b)[1..] == a[1..] + b;
      UrlsAppend(a[1..], b);
    }
  }

  /** The URLs a batch puts on the loading queue. */
  function BatchUrls(c: Cursor, size: nat): (r: seq<string>)
    ensures |r| <= size
  {
    Urls(Window(c, size))
  }

  /** The back control is shown exactly when the batch is not the first. */
  predicate ShowsBack(c: Cursor) {
    c.index > 0
  }

  /** The next control is shown exactly when records remain after the batch. */
  predicate ShowsNext(c: Cursor, size: nat) {
    c.index + size < |c.images|
  }

  /** The back control: one batch earlier, never below 0. It keeps the
      index a whole number of batches, moves strictly back whenever the
      back control is shown, and stays put on the first batch. */
  function GoBack(c: Cursor, size: nat): (r: Cursor)
    ensures r.images == c.images
    ensures r.index == if c.index >= size then c.index - size else 0
    ensures WholeBatches(c.index, size) ==> WholeBatches(r.index, size)
    ensures r.index <= c.index && (ShowsBack(c) && size > 0 ==> r.index < c.index)
    ensures !ShowsBack(c) ==> r == c
  {
    Cursor(c.images, if c.index >= size then c.index - size else 0)
  }

  /** The next control: one batch later. It keeps the index a whole
      number of batches, and the back control undoes it. */
  function GoNext(c: Cursor, size: nat): (r: Cursor)
    ensures r.images == c.images && r.index == c.index + size
    ensures WholeBatches(c.index, size) ==> WholeBatches(r.index, size)
    ensures GoBack(r, size) == c
  {
    Cursor(c.images, c.index + size)
  }

  /** A freshly fetched gallery starts at its first record. */
  function Start(images: seq<ImageInfo>): (c: Cursor)
    ensures c.images == images && c.index == 0 && !ShowsBack(c)
  {
    Cursor(images, 0)
  }

  /** `x` is a whole number of batches of `size`. */
  predicate WholeBatches(x: nat, size: nat)
    decreases x
  {
    x == 0 || (size > 0 && x >= size && WholeBatches(x - size, size))
  }

  /** Cursors that the controls can reach from a fresh gallery: the index is
      a whole number of batches into the list and never past its end. */
  predicate Aligned(c: Cursor, size: nat) {
    size > 0 && WholeBatches(c.index, size) && (c.index == 0 || c.index < |c.images|)
  }

  /** Starting from 0, every control that is shown keeps the index a whole
      number of batches and inside the list. */
  lemma ControlsKeepAligned(c: Cursor, size: nat)
    requires Aligned(c, size)
    ensures ShowsNext(c, size) ==> Aligned(GoNext(c, size), size)
    ensures ShowsBack(c) ==> Aligned(GoBack(c, size), size)
  {
    assert WholeBatches(c.index + size - size, size);
  }

  /** Back undoes next: next then back returns to the same batch. */
  lemma BackUndoesNext(c: Cursor, size: nat)
    ensures GoBack(GoNext(c, size), size) == c
  {
  }

  /** A batch whose next control is shown is full, and the batch after it
      is not empty. */
  lemma NextBatchNonEmpty(c: Cursor, size: nat)
    requires size > 0 && ShowsNext(c, size)
    ensures |Window(c, size)| == size
    ensures |Window(GoNext(c, size), size)| > 0
  {
    var n := GoNext(c, size);
    assert n.index < |n.images|;
    assert |Window(n, size)| == Min(size, |n.images| - n.index);
  }

  /** The batches from `index` on, one after the other. */
  function Batches(c: Cursor, size: nat): seq<ImageInfo>
    requires size > 0
    decreases |c.images| - c.index
  {
    if c.index >= |c.images| then [] else Window(c, size) + Batches(GoNext(c, size), size)
  }

  /** Clicking next through every batch shows each record exactly once, in
      order: the batches from `index` concatenate to the rest of the list. */
  lemma {:induction false} BatchesTile(c: Cursor, size: nat)
    requires size > 0 && c.index <= |c.images|
    ensures Batches(c, size) == c.images[c.index..]
    decreases |c.images| - c.index
  {
    if c.index < |c.images| {
      var n := GoNext(c, size);
      if n.index <= |c.images| {
        BatchesTile(n, size);
        assert c.images[c.index..] == c.images[c.index..n.index] + c.images[n.index..];
      } else {
        assert Batches(n, size) == [];
      }
    }
  }

  /** The documented example: 23 records in batches of ten give batches of
      10, 10 and 3 records; the first has only next, the last only back. */
  lemma TwentyThreeImages(images: seq<ImageInfo>)
    requires |images| == 23
    ensures var c0 := Start(images); var c1 := GoNext(c0, 10); var c2 := GoNext(c1, 10);
      && |Window(c0, 10)| == 10 && ShowsNext(c0, 10) && !ShowsBack(c0)
      && |Window(c1, 10)| == 10 && ShowsNext(c1, 10) && ShowsBack(c1)
      && |Window(c2, 10)| == 3 && !ShowsNext(c2, 10) && ShowsBack(c2)
  {
  }

  // ---------------------------------------------------------------------
  // The loading worker

  /** File endings the worker does not try to show. */
  predicate IsVideo(url: string) {
    EndsWith(url, ".mp4") || EndsWith(url, ".webm") || EndsWith(url, ".gif")
  }

  /** What requesting one queued URL gives: a network failure, or a
      response with its Content-Type header and, when its body decodes as
      an image, that image's size. */
  datatype Fetch =
    | NetworkError
    | Response(contentType: Option<string>, picture: Option<Size>)

  /** What the worker adds to the gallery frame for one URL: a button
      showing the picture at its resized size, or a notice. */
  datatype Item =
    | ImageButton(target: string, size: Size)
    | Notice(text: string)

  /** The worker resizes every picture to width 400, scaling the height. */
  const WorkerFit := HeightFromWidth(400)

  /** The worker's test for an acceptable response: a Content-Type header
      that starts with `image/` (a missing header counts as empty). */
  predicate IsImageType(contentType: Option<string>) {
    StartsWith(contentType.GetOr(""), "image/")
  }

  /** How an f-string shows the header: its value, or `None` when the
      response has none. */
  function HeaderText(contentType: Option<string>): string {
    contentType.GetOr("None")
  }

  /** A queued URL the worker gets as far as decoding. */
  predicate Decoding(url: string, f: Fetch) {
    !IsVideo(url) && f.Response? && IsImageType(f.contentType)
  }

  /** A queued URL whose response claims to be an image but does not
      decode. */
  predicate Undecodable(url: string, f: Fetch) {
    Decoding(url, f) && f.picture.None?
  }

  /** A decoded picture the worker cannot resize: a zero side divides by
      zero, and a picture more than 400 times wider than high scales to
      height 0, which the resize refuses. Neither exception is one the
      worker catches, so it stops. */
  predicate Fatal(url: string, f: Fetch) {
    Decoding(url, f) && f.picture.Some? && Resized(WorkerFit, f.picture.value).None?
  }

  /** The worker's answer to one queued URL: videos are skipped, every
      failure it catches gives a notice naming the URL, a decoded image
      gives a button that opens that URL. A picture it cannot resize gets
      no answer; the drains below stop there. */
  function Answer(url: string, f: Fetch): (r: Option<Item>)
    ensures r.None? <==> IsVideo(url) || Fatal(url, f)
    ensures r.Some? && r.value.ImageButton? <==> Decoding(url, f) && f.picture.Some? && !Fatal(url, f)
    ensures r.Some? && r.value.ImageButton? ==> r.value.target == url && r.value.size.width == 400 && Drawable(r.value.size)
  {
    if IsVideo(url) then None
    else match f
      case NetworkError => Some(Notice("Network Error for image " + url))
      case Response(t, d) =>
        if !IsImageType(t) then Some(Notice("URL " + url + " did not return an image. Content-Type: " + HeaderText(t)))
        else match d
          case Some(size) =>
            (match Resized(WorkerFit, size)
             case Some(shown) => Some(ImageButton(url, shown))
             case None => None)
          case None => Some(Notice("Could not open image file from URL: " + url))
  }

  /** A response without a Content-Type header is no image, and the
      notice shows the missing header as `None`. */
  lemma MissingTypeNotice(url: string, picture: Option<Size>)
    requires !IsVideo(url)
    ensures Answer(url, Response(None, picture)) == Some(Notice("URL " + url + " did not return an image. Content-Type: None"))
  {
    assert Answer(url, Response(None, picture)) == Some(Notice("URL " + url + " did not return an image. Content-Type: " + HeaderText(None)));
    assert "URL " + url + " did not return an image. Content-Type: " + "None" == "URL " + url + " did not return an image. Content-Type: None";
  }

  function Items(a: Option<Item>): seq<Item> {
    if a.Some? then [a.value] else []
  }

  /** The worker as written: for an undecodable image its handler formats a
      variable that handler never bound, so the worker stops there and the
      rest of the queue is never shown; it stops too at a picture it cannot
      resize. */
  function DrainAsWritten(queue: seq<string>, fetch: map<string, Fetch>): (r: seq<Item>)
    requires forall u :: u in queue ==> u in fetch
    ensures |r| <= NonVideos(queue)
    decreases |queue|
  {
    if |queue| == 0 then []
    else if Undecodable(queue[0], fetch[queue[0]]) || Fatal(queue[0], fetch[queue[0]]) then []
    else Items(Answer(queue[0], fetch[queue[0]])) + DrainAsWritten(queue[1..], fetch)
  }

  /** The worker as evidently intended: an undecodable response gives a
      notice like the other failures and the worker carries on. A picture
      it cannot resize still stops it. */
  function Drain(queue: seq<string>, fetch: map<string, Fetch>): (r: seq<Item>)
    requires forall u :: u in queue ==> u in fetch
    ensures |r| <= NonVideos(queue)
    decreases |queue|
  {
    if |queue| == 0 then []
    else if Fatal(queue[0], fetch[queue[0]]) then []
    else Items(Answer(queue[0], fetch[queue[0]])) + Drain(queue[1..], fetch)
  }

  /** No queued picture stops the worker. */
  predicate NoFatal(queue: seq<string>, fetch: map<string, Fetch>)
    requires forall u :: u in queue ==> u in fetch
  {
    forall i :: 0 <= i < |queue| ==> !Fatal(queue[i], fetch[queue[i]])
  }

  /** The number of queued URLs that are not videos. */
  function NonVideos(queue: seq<string>): nat {
    if |queue| == 0 then 0 else (if IsVideo(queue[0]) then 0 else 1) + NonVideos(queue[1..])
  }

  /** Unless a picture stops it, the corrected worker answers every
      non-video URL with exactly one item, in queue order; its buttons open
      only queued URLs. */
  lemma {:induction false} DrainAnswersEveryImage(queue: seq<string>, fetch: map<string, Fetch>)
    requires forall u :: u in queue ==> u in fetch
    ensures NoFatal(queue, fetch) ==> |Drain(queue, fetch)| == NonVideos(queue)
    ensures forall i :: 0 <= i < |Drain(queue, fetch)| && Drain(queue, fetch)[i].ImageButton? ==> Drain(queue, fetch)[i].target in queue
    decreases |queue|
  {
    if |queue| > 0 && !Fatal(queue[0], fetch[queue[0]]) {
      DrainAnswersEveryImage(queue[1..], fetch);
      assert NoFatal(queue, fetch) ==> NoFatal(queue[1..], fetch) by {
        assert forall i :: 0 <= i < |queue[1..]| ==> queue[1..][i] == queue[i + 1];
      }
      var head := Items(Answer(queue[0], fetch[queue[0]]));
      var rest := Drain(queue[1..], fetch);
      var d := Drain(queue, fetch);
      assert d == head + rest;
      forall i | 0 <= i < |d| && d[i].ImageButton?
        ensures d[i].target in queue
      {
        if i < |head| {
          assert d[i] == head[i];
        } else {
          assert d[i] == rest[i - |head|];
          assert d[i].target in queue[1..];
        }
      }
    }
  }

  /** The worker as written shows a prefix of what the corrected one shows,
      all of it exactly when no queued image is undecodable. */
  lemma {:induction false} AsWrittenIsPrefix(queue: seq<string>, fetch: map<string, Fetch>)
    requires forall u :: u in queue ==> u in fetch
    ensures var w := DrainAsWritten(queue, fetch); |w| <= |Drain(queue, fetch)| && w == Drain(queue, fetch)[..|w|]
    ensures (forall i :: 0 <= i < |queue| ==> !Undecodable(queue[i], fetch[queue[i]])) ==> DrainAsWritten(queue, fetch) == Drain(queue, fetch)
    decreases |queue|
  {
    if |queue| > 0 && !Fatal(queue[0], fetch[queue[0]]) {
      AsWrittenIsPrefix(queue[1..], fetch);
      var head := Items(Answer(queue[0], fetch[queue[0]]));
      if !Undecodable(queue[0], fetch[queue[0]]) {
        var w := DrainAsWritten(queue[1..], fetch);
        var d := Drain(queue[1..], fetch);
        assert (head + d)[..|head + w|] == head + d[..|w|];
        if forall i :: 0 <= i < |queue| ==> !Undecodable(queue[i], fetch[queue[i]]) {
          assert forall i :: 0 <= i < |queue[1..]| ==> queue[1..][i] == queue[i + 1];
        }
      }
    }
  }

  /** The worker as written loses every image queued after an undecodable
      one: with `a` undecodable and `b` a good 400 by 300 image it shows
      nothing, while the corrected worker shows a notice for `a` and a
      button for `b`. */
  lemma UndecodableStopsWorker(a: string, b: string)
    requires !IsVideo(a) && !IsVideo(b) && a != b
    ensures var fetch := map[a := Response(Some("image/png"), None), b := Response(Some("image/png"), Some(Size(400, 300)))];
      && DrainAsWritten([a, b], fetch) == []
      && Drain([a, b], fetch) == [Notice("Could not open image file from URL: " + a), ImageButton(b, Size(400, 300))]
  {
    var fetch := map[a := Response(Some("image/png"), None), b := Response(Some("image/png"), Some(Size(400, 300)))];
    assert [a, b][1..] == [b];
    assert StartsWith("image/png", "image/");
    assert Resized(WorkerFit, Size(400, 300)) == Some(Size(400, 300));
    assert Answer(a, fetch[a]) == Some(Notice("Could not open image file from URL: " + a));
    assert Answer(b, fetch[b]) == Some(ImageButton(b, Size(400, 300)));
    assert Drain([b], fetch) == [ImageButton(b, Size(400, 300))];
  }

  /** A picture too wide to resize ends both workers: a 1000 by 2 panorama
      scales to height 0, so nothing after it is shown either. */
  lemma PanoramaStopsWorker(a: string, b: string, good: Fetch)
    requires !IsVideo(a) && a != b
    requires good == Response(Some("image/png"), Some(Size(400, 300)))
    ensures var fetch := map[a := Response(Some("image/png"), Some(Size(1000, 2))), b := good];
      && Drain([a, b], fetch) == [] && DrainAsWritten([a, b], fetch) == []
  {
    assert StartsWith("image/png", "image/");
    assert Target(WorkerFit, Size(1000, 2)) == Some(Size(400, 0));
  }

  /** The worker stops at the first picture it cannot resize: what it
      shows is what it shows for the URLs before that one. */
  lemma {:induction false} FatalCutsQueue(queue: seq<string>, fetch: map<string, Fetch>, k: nat)
    requires forall u :: u in queue ==> u in fetch
    requires k < |queue| && Fatal(queue[k], fetch[queue[k]])
    ensures Drain(queue, fetch) == Drain(queue[..k], fetch)
    decreases k
  {
    if k > 0 {
      assert queue[1..][..k - 1] == queue[..k][1..];
      FatalCutsQueue(queue[1..], fetch, k - 1);
    }
  }
}
