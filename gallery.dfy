/** The pure parts of the gallery's `Home` component: the photo record, the
    outcome of a request to the photo service, the search-history list, the
    page arithmetic of infinite scrolling, the image address of a photo and the
    grid of tiles the component draws. */
module Gallery {
  import opened Text

  /** Longest search history the component keeps. */
  const MaxSearchHistory: nat := 5
  /** Photos per page asked of the service when scrolling for more. */
  const PageSize: nat := 50
  /** The `item` count of the skeleton drawn while loading. */
  const LoadingPlaceholders: nat := 20

  /** One entry of the service's `photos.photo` list, with the fields the
      component reads. */
  datatype Photo = Photo(id: string, owner: string, secret: string, server: string, farm: nat, title: string)

  /** What a request to the photo service ends in, as the handlers tell the
      cases apart: a body whose `photos.photo` is an array; a body whose
      `data.photos` is neither null nor undefined and whose `photo` is not an
      array; a body where `data` or `data.photos` is null or undefined; or a
      rejected `fetch` or `json()`. */
  datatype Response =
    | PhotoPage(page: seq<Photo>)
    | PhotoNotArray
    | NoPhotos
    | NetworkFailure

  /** The request the component sends: a relevance-sorted search for the term,
      the recent-photos feed, or a further page of the search for the term. */
  datatype Request =
    | SearchRequest(text: string)
    | DefaultRequest
    | MoreRequest(text: string, page: nat)

  // ---- search or default feed ----

  /** The request the component sends when the search term changes: a search
      for the term as typed, unless it is all whitespace. */
  function Dispatch(term: string): Request {
    if !IsBlank(term) then SearchRequest(term) else DefaultRequest
  }

  /** The feed is requested exactly when every character of the term is
      whitespace; otherwise the term is searched for as typed. */
  lemma DispatchByContent(term: string)
    ensures Dispatch(term) == DefaultRequest <==> forall i :: 0 <= i < |term| ==> IsWhitespace(term[i])
    ensures Dispatch(term) != DefaultRequest ==> Dispatch(term) == SearchRequest(term)
  {
    BlankIff(term);
  }

  // ---- search history ----

  /** `list.slice(0, k)`. */
  function Take<T>(list: seq<T>, k: nat): (r: seq<T>)
    ensures |r| == if |list| < k then |list| else k
    ensures r <= list
  {
    if |list| <= k then list else list[..k]
  }

  /** The history after committing `term`: the term, then the newest
      `MaxSearchHistory - 1` entries of the old history. */
  function NewHistory(term: string, saved: seq<string>): (r: seq<string>)
    ensures |r| == if |saved| < MaxSearchHistory then |saved| + 1 else MaxSearchHistory
    ensures r[0] == term
    ensures r[1..] <= saved
  {
    [term] + Take(saved, MaxSearchHistory - 1)
  }

  /** Committing to a full history evicts exactly the oldest entry, and every
      other entry moves one place down. */
  lemma NewHistoryEvictsOldest(term: string, saved: seq<string>)
    requires |saved| == MaxSearchHistory
    ensures NewHistory(term, saved) == [term] + saved[..|saved| - 1]
    ensures forall i :: 0 <= i < |saved| - 1 ==> NewHistory(term, saved)[i + 1] == saved[i]
  {
  }

  /** A history built only by commits never holds more than `MaxSearchHistory`
      entries, whatever was committed, and holds the newest term first. */
  lemma {:induction false} HistoryOfCommits(terms: seq<string>)
    ensures |CommitAll([], terms)| <= MaxSearchHistory
    ensures terms != [] ==> CommitAll([], terms)[0] == terms[|terms| - 1]
    ensures |CommitAll([], terms)| == if |terms| < MaxSearchHistory then |terms| else MaxSearchHistory
  {
    if terms != [] {
      HistoryOfCommits(terms[..|terms| - 1]);
    }
  }

  /** The history after committing each of `terms` in turn, oldest first. */
  function CommitAll(saved: seq<string>, terms: seq<string>): seq<string> {
    if terms == [] then saved else NewHistory(terms[|terms| - 1], CommitAll(saved, terms[..|terms| - 1]))
  }

  /** Entry `i` of `history` is entry `i` of `terms` counted from the end. */
  ghost predicate ListsNewestFirst(history: seq<string>, terms: seq<string>) {
    |history| <= |terms| &&
    forall i :: 0 <= i < |history| ==> history[i] == terms[|terms| - 1 - i]
  }

  lemma CommitKeepsNewestFirst(term: string, history: seq<string>, terms: seq<string>)
    requires ListsNewestFirst(history, terms)
    ensures ListsNewestFirst(NewHistory(term, history), terms + [term])
  {
  }

  /** After any run of commits, the history lists the latest terms, newest
      first: entry `i` is the term committed `i` commits before the last. */
  lemma {:induction false} HistoryListsLatest(terms: seq<string>)
    ensures ListsNewestFirst(CommitAll([], terms), terms)
  {
    if terms != [] {
      var front, last := terms[..|terms| - 1], terms[|terms| - 1];
      assert terms == front + [last];
      var before := CommitAll([], front);
      assert CommitAll([], terms) == NewHistory(last, before);
      HistoryListsLatest(front);
      CommitKeepsNewestFirst(last, before, front);
    } else {
      assert CommitAll([], terms) == [];
    }
  }

  // ---- page arithmetic ----

  /** `Math.ceil(count / 50) + 1`: the page asked for when more photos are
      wanted and `count` are already shown. */
  function NextPage(count: nat): (p: nat)
    ensures p >= 1
  {
    (count + PageSize - 1) / PageSize + 1
  }

  /** The page asked for is the first one not needed to hold the photos
      already shown: `p - 1` full pages hold them, `p - 2` do not. */
  lemma NextPageBounds(count: nat)
    ensures PageSize * (NextPage(count) - 1) >= count
    ensures count > 0 ==> PageSize * (NextPage(count) - 2) < count
  {
  }

  /** After `k` full pages the next request is for page `k + 1`: 0 photos ask
      for page 1, 50 photos for page 2. */
  lemma NextPageAfterFullPages(k: nat)
    ensures NextPage(PageSize * k) == k + 1
  {
  }

  /** Appending a non-empty page of at most `PageSize` photos to a whole
      number of pages moves the next request on by exactly one page. */
  lemma NextPageAdvances(k: nat, n: nat)
    requires 1 <= n <= PageSize
    ensures NextPage(PageSize * k + n) == NextPage(PageSize * k) + 1
  {
  }

  // ---- outcomes of the three requests ----

  /** The photo list and the more-to-come flag that a page fetch acts on. */
  datatype Feed = Feed(photos: seq<Photo>, hasMore: bool)

  /** The photo list after the recent-photos feed answers: replaced by a page
      whose `photos.photo` is an array, kept otherwise. */
  function ReplaceOutcome(photos: seq<Photo>, resp: Response): (r: seq<Photo>)
    ensures resp.PhotoPage? ==> r == resp.page
    ensures !resp.PhotoPage? ==> r == photos
  {
    match resp
    case PhotoPage(page) => page
    case _ => photos
  }

  /** What `photos` holds after the search handler stores `data.photos.photo`:
      a list, or something that is not a list. */
  datatype Stored = List(items: seq<Photo>) | NotAList

  /** The search handler as written: it stores `data.photos.photo` without
      checking that it is an array, and only a null or undefined `data` or
      `data.photos`, or a failed request (both thrown and caught), keep the
      old list. */
  function SearchOutcomeAsWritten(photos: seq<Photo>, resp: Response): (r: Stored)
    ensures resp.PhotoPage? ==> r == List(resp.page)
    ensures resp.PhotoNotArray? ==> r == NotAList
    ensures resp.NoPhotos? || resp.NetworkFailure? ==> r == List(photos)
  {
    match resp
    case PhotoPage(page) => List(page)
    case PhotoNotArray => NotAList
    case NoPhotos => List(photos)
    case NetworkFailure => List(photos)
  }

  /** The search handler as written agrees with the checked handling of the
      other two requests on every response except a `PhotoNotArray` answer
      (`data.photos` neither null nor undefined, `photo` not an array), where it
      leaves `photos` not a list. */
  lemma SearchAsWrittenDiverges(photos: seq<Photo>, resp: Response)
    ensures SearchOutcomeAsWritten(photos, resp) == List(ReplaceOutcome(photos, resp)) <==> !resp.PhotoNotArray?
    ensures SearchOutcomeAsWritten(photos, PhotoNotArray).NotAList?
  {
  }

  /** The photo list and the flag after a further page is fetched. */
  function MoreOutcome(photos: seq<Photo>, hasMore: bool, resp: Response): (r: Feed)
    // the photos already shown stay, in order, at the front
    ensures photos <= r.photos
    // what is added is exactly the fetched page
    ensures resp.PhotoPage? ==> r.photos == photos + resp.page
    // a malformed answer or a failure changes nothing
    ensures !resp.PhotoPage? ==> r == Feed(photos, hasMore)
    // the flag is never raised, and only an empty page lowers it
    ensures r.hasMore ==> hasMore
    ensures hasMore && !r.hasMore <==> hasMore && resp == PhotoPage([])
    // an empty page leaves the photos as they were
    ensures resp == PhotoPage([]) ==> r.photos == photos
  {
    match resp
    case PhotoPage(page) =>
      if |page| == 0 then Feed(photos, false) else Feed(photos + page, hasMore)
    case _ => Feed(photos, hasMore)
  }

  /** Fetching further pages only ever grows the photo list and only ever
      lowers the flag, over any sequence of responses. */
  lemma {:induction false} MoreOutcomesMonotone(photos: seq<Photo>, hasMore: bool, resps: seq<Response>)
    ensures photos <= MoreAll(photos, hasMore, resps).photos
    ensures MoreAll(photos, hasMore, resps).hasMore ==> hasMore
    decreases |resps|
  {
    if resps != [] {
      var f := MoreOutcome(photos, hasMore, resps[0]);
      MoreOutcomesMonotone(f.photos, f.hasMore, resps[1..]);
    }
  }

  /** The feed after each of `resps` is applied as a further page, in order. */
  function MoreAll(photos: seq<Photo>, hasMore: bool, resps: seq<Response>): Feed
    decreases |resps|
  {
    if resps == [] then Feed(photos, hasMore)
    else
      var f := MoreOutcome(photos, hasMore, resps[0]);
      MoreAll(f.photos, f.hasMore, resps[1..])
  }

  // ---- image address ----

  /** `https://farm${farm}.staticflickr.com/${server}/${id}_${secret}.jpg`. */
  function ImageUrl(p: Photo): string {
    "https://farm" + NatToDecimal(p.farm) + ".staticflickr.com/" + p.server + "/" + p.id + "_" + p.secret + ".jpg"
  }

  /** The fields an image address is built from. */
  datatype UrlParts = UrlParts(farm: nat, server: string, id: string, secret: string)

  /** Reads the farm, server, id and secret back out of an image address. */
  function ParseImageUrl(url: string): Option<UrlParts> {
    match StripPrefix("https://farm", url)
    case None => None
    case Some(afterScheme) =>
      match SplitAt(afterScheme, '.')
      case None => None
      case Some((farmDigits, afterFarm)) =>
        match ParseDecimal(farmDigits)
        case None => None
        case Some(farm) =>
          match StripPrefix("staticflickr.com/", afterFarm)
          case None => None
          case Some(path) =>
            match ParseImagePath(path)
            case None => None
            case Some(parts) => Some(UrlParts(farm, parts.server, parts.id, parts.secret))
  }

  /** Reads `${server}/${id}_${secret}.jpg`; the farm of the result is 0. */
  function ParseImagePath(path: string): Option<UrlParts> {
    match SplitAt(path, '/')
    case None => None
    case Some((server, file)) =>
      match StripSuffix(file, ".jpg")
      case None => None
      case Some(stem) =>
        match SplitAt(stem, '_')
        case None => None
        case Some((id, secret)) => Some(UrlParts(0, server, id, secret))
  }

  lemma ImagePathRoundTrip(server: string, id: string, secret: string)
    requires '/' !in server && '_' !in id
    ensures ParseImagePath(server + "/" + id + "_" + secret + ".jpg") == Some(UrlParts(0, server, id, secret))
  {
    var file := id + "_" + secret + ".jpg";
    assert server + "/" + id + "_" + secret + ".jpg" == server + ['/'] + file;
    SplitAtJoin(server, '/', file);
    assert StripSuffix(file, ".jpg") == Some(id + "_" + secret);
    assert id + "_" + secret == id + ['_'] + secret;
    SplitAtJoin(id, '_', secret);
  }

  /** The image address determines the photo's farm, server, id and secret,
      provided the server holds no `/` and the id no `_` (Flickr's server and
      photo ids are numerals). */
  lemma ImageUrlRoundTrip(p: Photo)
    requires '/' !in p.server && '_' !in p.id
    ensures ParseImageUrl(ImageUrl(p)) == Some(UrlParts(p.farm, p.server, p.id, p.secret))
  {
    var digits := NatToDecimal(p.farm);
    var path := p.server + "/" + p.id + "_" + p.secret + ".jpg";
    var afterFarm := "staticflickr.com/" + path;
    var url := ImageUrl(p);
    assert url == "https://farm" + (digits + ['.'] + afterFarm);
    assert StripPrefix("https://farm", url) == Some(digits + ['.'] + afterFarm);
    SplitAtJoin(digits, '.', afterFarm);
    DecimalRoundTrip(p.farm);
    assert StripPrefix("staticflickr.com/", afterFarm) == Some(path);
    ImagePathRoundTrip(p.server, p.id, p.secret);
  }

  /** Photos whose server and id are of the service's shape get the same image
      address only when they agree on farm, server, id and secret. */
  lemma ImageUrlInjective(p: Photo, q: Photo)
    requires '/' !in p.server && '_' !in p.id
    requires '/' !in q.server && '_' !in q.id
    requires ImageUrl(p) == ImageUrl(q)
    ensures p.farm == q.farm && p.server == q.server && p.id == q.id && p.secret == q.secret
  {
    ImageUrlRoundTrip(p);
    ImageUrlRoundTrip(q);
  }

  // ---- the photo grid ----

  /** One cell of the grid: its React key, whether the loading placeholder is
      drawn, whether the image is hidden, and the image's address and text. */
  datatype Tile = Tile(key: string, placeholder: bool, imageHidden: bool, src: string, alt: string)

  /** The grid the component draws: the loading skeleton, or a tile per photo. */
  datatype Grid = Placeholders(count: nat) | Tiles(tiles: seq<Tile>)

  function TileFor(p: Photo, index: nat, loadedImages: seq<string>): Tile {
    var loaded := p.id in loadedImages;
    Tile(p.id + "-" + NatToDecimal(index), !loaded, !loaded, ImageUrl(p), p.title)
  }

  /** The tiles for `photos`, in order: the placeholder is drawn, and the image
      kept hidden, exactly for the photos whose id has not finished loading. */
  function PhotoTiles(photos: seq<Photo>, loadedImages: seq<string>): (r: seq<Tile>)
    ensures |r| == |photos|
    ensures forall i :: 0 <= i < |r| ==>
      (r[i].placeholder <==> photos[i].id !in loadedImages) &&
      r[i].imageHidden == r[i].placeholder &&
      r[i].src == ImageUrl(photos[i]) && r[i].alt == photos[i].title
  {
    seq(|photos|, i requires 0 <= i < |photos| => TileFor(photos[i], i, loadedImages))
  }

  /** What the component draws from its loading flag, photos and loaded ids. */
  function Render(isLoading: bool, photos: seq<Photo>, loadedImages: seq<string>): (g: Grid)
    ensures isLoading <==> g == Placeholders(LoadingPlaceholders)
    ensures !isLoading ==> g == Tiles(PhotoTiles(photos, loadedImages))
  {
    if isLoading then Placeholders(LoadingPlaceholders) else Tiles(PhotoTiles(photos, loadedImages))
  }

  /** Once an id has loaded, every tile of a photo with that id shows its image,
      and no other tile changes. */
  lemma LoadRevealsImage(photos: seq<Photo>, loadedImages: seq<string>, id: string)
    ensures forall i :: 0 <= i < |photos| && photos[i].id == id ==>
      !PhotoTiles(photos, loadedImages + [id])[i].placeholder
    ensures forall i :: 0 <= i < |photos| && photos[i].id != id ==>
      PhotoTiles(photos, loadedImages + [id])[i] == PhotoTiles(photos, loadedImages)[i]
  {
  }

  /** Reporting an id as loaded again draws the same grid: only membership of
      the loaded list matters, not how often an id occurs in it. */
  lemma LoadAgainChangesNothing(photos: seq<Photo>, loadedImages: seq<string>, id: string)
    requires id in loadedImages
    ensures PhotoTiles(photos, loadedImages + [id]) == PhotoTiles(photos, loadedImages)
  {
  }
}
