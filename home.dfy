/** The `Home` component as a state machine: its state hooks become fields,
    each event handler and effect a method. React re-renders, the timer behind
    the search-history debounce and the answers of the photo service are
    explicit steps the caller takes, one at a time. */
module HomeComponent {
  import opened Text
  import opened Gallery

  /** The history commit a debounce timer will run when it fires: the term it
      was scheduled for, and the history as it stood when it was scheduled (the
      timer's callback closes over that render's list). */
  datatype Commit = Commit(term: string, snapshot: seq<string>)

  class Home {
    var photos: seq<Photo>
    var searchTerm: string
    var isLoading: bool
    var loadedImages: seq<string>
    var selectedPhoto: Option<Photo>
    var hasMore: bool
    var savedSearchQueries: seq<string>
    /** The one debounce timer that may be outstanding. */
    var pendingCommit: Option<Commit>
    /** The `savedSearchQueries` entry of local storage, as this component last
        wrote it (None: not written, or removed). */
    ghost var persisted: Option<seq<string>>

    /** The history never exceeds its bound, and whatever was last written to
        storage is the history shown. */
    ghost predicate Valid()
      reads this
    {
      |savedSearchQueries| <= MaxSearchHistory &&
      (persisted.Some? ==> persisted.value == savedSearchQueries)
    }

    /** What the component draws for its current state. */
    function View(): (g: Grid)
      reads this
      ensures isLoading ==> g == Placeholders(LoadingPlaceholders)
      ensures !isLoading ==> g == Tiles(PhotoTiles(photos, loadedImages))
    {
      Render(isLoading, photos, loadedImages)
    }

    /** The first render: the initial hook values, and the debounce timer its
        effect schedules for the empty term. */
    constructor ()
      ensures Valid()
      ensures photos == [] && searchTerm == "" && isLoading && loadedImages == []
      ensures selectedPhoto == None && hasMore && savedSearchQueries == []
      ensures pendingCommit == Some(Commit("", [])) && persisted == None
    {
      photos := [];
      searchTerm := "";
      isLoading := true;
      loadedImages := [];
      selectedPhoto := None;
      hasMore := true;
      savedSearchQueries := [];
      pendingCommit := Some(Commit("", []));
      persisted := None;
    }

    /** The input's change handler and a click on a history entry, which both
        set the term, followed by the two effects that run when the term has
        changed: the search or default request is sent (and the loading flag
        raised), and the pending debounce timer is replaced by one for the new
        term. Setting the term it already has re-renders nothing, so no effect
        runs. */
    method SetSearchTerm(term: string) returns (request: Option<Request>)
      requires Valid()
      modifies this
      ensures Valid()
      ensures request == (if term == old(searchTerm) then None else Some(Dispatch(term)))
      ensures searchTerm == term
      ensures isLoading == (old(isLoading) || term != old(searchTerm))
      ensures pendingCommit == (if term == old(searchTerm) then old(pendingCommit) else Some(Commit(term, old(savedSearchQueries))))
      ensures photos == old(photos) && loadedImages == old(loadedImages)
      ensures selectedPhoto == old(selectedPhoto) && hasMore == old(hasMore)
      ensures savedSearchQueries == old(savedSearchQueries) && persisted == old(persisted)
    {
      if term == searchTerm {
        return None;
      }
      searchTerm := term;
      request := Some(Dispatch(term));
      isLoading := true;
      pendingCommit := Some(Commit(term, savedSearchQueries));
    }

    /** The debounce timer fires: a term that is not blank goes in front of the
        history the timer captured, cut to the bound, and is stored. */
    method FireTimer()
      requires Valid()
      modifies this
      ensures Valid()
      ensures pendingCommit == None
      ensures match old(pendingCommit)
        case Some(Commit(term, snapshot)) =>
          if IsBlank(term) then
            savedSearchQueries == old(savedSearchQueries) && persisted == old(persisted)
          else
            savedSearchQueries == NewHistory(term, snapshot) && persisted == Some(savedSearchQueries)
        case None =>
          savedSearchQueries == old(savedSearchQueries) && persisted == old(persisted)
      ensures photos == old(photos) && searchTerm == old(searchTerm) && isLoading == old(isLoading)
      ensures loadedImages == old(loadedImages) && selectedPhoto == old(selectedPhoto)
      ensures hasMore == old(hasMore)
    {
      match pendingCommit {
        case Some(Commit(term, snapshot)) =>
          if !IsBlank(term) {
            var updated := NewHistory(term, snapshot);
            savedSearchQueries := updated;
            persisted := Some(updated);
          }
        case None =>
      }
      pendingCommit := None;
    }

    /** The clear button: the history and its stored copy are removed. A timer
        still pending is left alone. */
    method ClearSearchHistory()
      requires Valid()
      modifies this
      ensures Valid()
      ensures savedSearchQueries == [] && persisted == None
      ensures pendingCommit == old(pendingCommit)
      ensures photos == old(photos) && searchTerm == old(searchTerm) && isLoading == old(isLoading)
      ensures loadedImages == old(loadedImages) && selectedPhoto == old(selectedPhoto)
      ensures hasMore == old(hasMore)
    {
      savedSearchQueries := [];
      persisted := None;
    }

    /** The recent-photos feed answers: a well-formed page replaces the photos,
        anything else keeps them; loading ends either way. */
    method DefaultPhotosDone(resp: Response)
      requires Valid()
      modifies this
      ensures Valid()
      ensures photos == ReplaceOutcome(old(photos), resp) && !isLoading
      ensures searchTerm == old(searchTerm) && loadedImages == old(loadedImages)
      ensures selectedPhoto == old(selectedPhoto) && hasMore == old(hasMore)
      ensures savedSearchQueries == old(savedSearchQueries) && pendingCommit == old(pendingCommit)
      ensures persisted == old(persisted)
    {
      photos := ReplaceOutcome(photos, resp);
      isLoading := false;
    }

    /** The search answers. The model handles it as the feed is handled: a
        well-formed page replaces the photos, anything else keeps them, and
        loading ends. */
    method SearchPhotosDone(resp: Response)
      requires Valid()
      modifies this
      ensures Valid()
      ensures photos == ReplaceOutcome(old(photos), resp) && !isLoading
      ensures searchTerm == old(searchTerm) && loadedImages == old(loadedImages)
      ensures selectedPhoto == old(selectedPhoto) && hasMore == old(hasMore)
      ensures savedSearchQueries == old(savedSearchQueries) && pendingCommit == old(pendingCommit)
      ensures persisted == old(persisted)
    {
      photos := ReplaceOutcome(photos, resp);
      isLoading := false;
    }

    /** Infinite scrolling asks for more: the next page of the search for the
        term is requested, and its answer appended or, when empty, taken as the
        end of the results; loading ends in every case. */
    method FetchMorePhotos(resp: Response) returns (request: Request)
      requires Valid()
      modifies this
      ensures Valid()
      ensures request == MoreRequest(old(searchTerm), NextPage(|old(photos)|))
      ensures Feed(photos, hasMore) == MoreOutcome(old(photos), old(hasMore), resp)
      ensures !isLoading
      ensures searchTerm == old(searchTerm) && loadedImages == old(loadedImages)
      ensures selectedPhoto == old(selectedPhoto)
      ensures savedSearchQueries == old(savedSearchQueries) && pendingCommit == old(pendingCommit)
      ensures persisted == old(persisted)
    {
      request := MoreRequest(searchTerm, NextPage(|photos|));
      match resp {
        case PhotoPage(page) =>
          if |page| == 0 {
            hasMore := false;
          } else {
            photos := photos + page;
          }
        case _ =>
      }
      isLoading := false;
    }

    /** An image finished loading: its id is added to the loaded list. */
    method HandleImageLoad(id: string)
      requires Valid()
      modifies this
      ensures Valid()
      ensures loadedImages == old(loadedImages) + [id]
      ensures photos == old(photos) && searchTerm == old(searchTerm) && isLoading == old(isLoading)
      ensures selectedPhoto == old(selectedPhoto) && hasMore == old(hasMore)
      ensures savedSearchQueries == old(savedSearchQueries) && pendingCommit == old(pendingCommit)
      ensures persisted == old(persisted)
    {
      loadedImages := loadedImages + [id];
    }

    /** A click on an image opens it in the overlay. */
    method OpenModal(photo: Photo)
      requires Valid()
      modifies this
      ensures Valid()
      ensures selectedPhoto == Some(photo)
      ensures photos == old(photos) && searchTerm == old(searchTerm) && isLoading == old(isLoading)
      ensures loadedImages == old(loadedImages) && hasMore == old(hasMore)
      ensures savedSearchQueries == old(savedSearchQueries) && pendingCommit == old(pendingCommit)
      ensures persisted == old(persisted)
    {
      selectedPhoto := Some(photo);
    }

    /** The overlay is closed. */
    method CloseModal()
      requires Valid()
      modifies this
      ensures Valid()
      ensures selectedPhoto == None
      ensures photos == old(photos) && searchTerm == old(searchTerm) && isLoading == old(isLoading)
      ensures loadedImages == old(loadedImages) && hasMore == old(hasMore)
      ensures savedSearchQueries == old(savedSearchQueries) && pendingCommit == old(pendingCommit)
      ensures persisted == old(persisted)
    {
      selectedPhoto := None;
    }
  }

  // ---- runs of the component ----

  /** Typing "a" and then "ab" before the timer fires cancels the timer for "a":
      once the input rests, the history holds exactly one entry, "ab", and a
      further timeout commits nothing more. */
  method TypeTwiceThenRest() returns (history: seq<string>)
    ensures history == ["ab"]
  {
    var home := new Home();
    var _ := home.SetSearchTerm("a");
    var _ := home.SetSearchTerm("ab");
    assert home.pendingCommit == Some(Commit("ab", []));
    home.FireTimer();
    home.FireTimer();
    history := home.savedSearchQueries;
    assert home.persisted == Some(history);
  }

  /** A whitespace-only term sends the default request and never reaches the
      history, and the initial timer for the empty term commits nothing. */
  method BlankTermNotCommitted() returns (request: Option<Request>, history: seq<string>)
    ensures request == Some(DefaultRequest)
    ensures history == []
  {
    var home := new Home();
    home.FireTimer();
    request := home.SetSearchTerm("  ");
    home.FireTimer();
    history := home.savedSearchQueries;
  }

  /** Clearing the history while a timer for a non-blank term is pending does
      not survive the timer: the timer puts back the history it captured,
      behind the new term. */
  method ClearBeforeTimerFires() returns (afterClear: seq<string>, history: seq<string>)
    ensures afterClear == []
    ensures history == ["cat", "dog"]
  {
    var home := new Home();
    var _ := home.SetSearchTerm("dog");
    home.FireTimer();
    var _ := home.SetSearchTerm("cat");
    home.ClearSearchHistory();
    afterClear := home.savedSearchQueries;
    home.FireTimer();
    history := home.savedSearchQueries;
  }

  /** Emptying the search box and then clearing the history lasts: the timer
      pending for the blank term commits nothing when it fires. */
  method ClearAfterBlankTermLasts() returns (before: seq<string>, history: seq<string>)
    ensures before == ["cat"]
    ensures history == []
  {
    var home := new Home();
    var _ := home.SetSearchTerm("cat");
    home.FireTimer();
    before := home.savedSearchQueries;
    var _ := home.SetSearchTerm("");
    home.ClearSearchHistory();
    home.FireTimer();
    history := home.savedSearchQueries;
  }

  /** A search for "cat" answered with 50 photos leaves 50 photos and more to
      come; scrolling then asks for page 2, and an empty page ends the results
      without touching the 50 photos. */
  method SearchThenScrollToEnd(fifty: seq<Photo>) returns (first: Option<Request>, more: Request, count: nat, moreToCome: bool)
    requires |fifty| == PageSize
    ensures first == Some(SearchRequest("cat"))
    ensures more == MoreRequest("cat", 2)
    ensures count == PageSize && !moreToCome
  {
    var home := new Home();
    first := home.SetSearchTerm("cat");
    home.SearchPhotosDone(PhotoPage(fifty));
    assert home.hasMore && |home.photos| == PageSize;
    NextPageAfterFullPages(1);
    more := home.FetchMorePhotos(PhotoPage([]));
    count := |home.photos|;
    moreToCome := home.hasMore;
  }

  /** A failed or malformed answer to a scroll request leaves the photos and
      the flag as they were, and ends loading. */
  method ScrollFailureKeepsPhotos(fifty: seq<Photo>, failure: Response) returns (count: nat, moreToCome: bool, loading: bool)
    requires |fifty| == PageSize && !failure.PhotoPage?
    ensures count == PageSize && moreToCome && !loading
  {
    var home := new Home();
    home.DefaultPhotosDone(PhotoPage(fifty));
    var _ := home.FetchMorePhotos(failure);
    count := |home.photos|;
    moreToCome := home.hasMore;
    loading := home.isLoading;
  }

  /** Opening one photo and then another shows only the second; closing then
      shows none, and closing again changes nothing. */
  method OpenTwoThenClose(p1: Photo, p2: Photo) returns (between: Option<Photo>, after: Option<Photo>)
    ensures between == Some(p2)
    ensures after == None
  {
    var home := new Home();
    home.OpenModal(p1);
    home.OpenModal(p2);
    between := home.selectedPhoto;
    home.CloseModal();
    home.CloseModal();
    after := home.selectedPhoto;
  }

  /** Once the photos are shown, a loaded image replaces its placeholder, and
      reporting the same load twice draws the same grid as once. */
  method LoadImageTwice(p: Photo) returns (once: Grid, twice: Grid)
    ensures once == twice
    ensures once.Tiles? && |once.tiles| == 1 && !once.tiles[0].placeholder
  {
    var home := new Home();
    home.DefaultPhotosDone(PhotoPage([p]));
    home.HandleImageLoad(p.id);
    once := home.View();
    home.HandleImageLoad(p.id);
    LoadAgainChangesNothing([p], [p.id], p.id);
    twice := home.View();
  }
}
