/** Upload records, the index by gallery and the history of saves they both reflect. */
module UploadRecords {
  import opened Common

  datatype Record = Record(
    photo: UUID,
    gallery: UUID,
    uploader: UUID,
    filename: string,
    contentType: string,
    storageKey: ObjectKey,
    sizeBytes: int,
    uploadedAt: int)

  /** `galleries/<gallery>/<photo>`, with `_<filename>` appended when there is one. */
  datatype ObjectKey = ObjectKey(gallery: UUID, photo: UUID, filename: string)

  /** The service ignores whether a gallery identifier parsed: it goes on with whatever the
      parse left behind. */
  function GalleryOf(text: IdText): UUID {
    match text
    case NoId => NIL
    case IdOf(id) => id
    case BadId(partial) => partial
  }

  function Smaller(a: int, b: int): int {
    if a < b then a else b
  }

  /** The slice a page request selects. */
  function Window<T>(s: seq<T>, offset: nat, limit: int): (page: seq<T>)
    ensures limit > 0 ==> |page| <= limit
  {
    var from := Smaller(offset, |s|);
    var to := if limit <= 0 then |s| else Smaller(from + limit, |s|);
    s[from..to]
  }

  type PhotoIndex = map<UUID, seq<UUID>>

  /** The photos listed for a gallery, in the order they were first saved. */
  function ListOf(index: PhotoIndex, gallery: UUID): seq<UUID> {
    if gallery in index then index[gallery] else []
  }

  predicate IsUnder(index: PhotoIndex, gallery: UUID, photo: UUID) {
    photo in ListOf(index, gallery)
  }

  predicate IsListed(index: PhotoIndex, photo: UUID) {
    exists g <- index :: photo in index[g]
  }

  /** Every known photo is listed once, in one gallery, and nothing else is listed. */
  ghost predicate ListsAll(index: PhotoIndex, known: set<UUID>) {
    && (forall g :: Distinct(ListOf(index, g)))
    && (forall photo {:trigger IsListed(index, photo)} :: IsListed(index, photo) <==> photo in known)
    && (forall g, h, photo :: IsUnder(index, g, photo) && IsUnder(index, h, photo) ==> g == h)
  }

  /** The index once a new photo is saved: it is listed last in its gallery. */
  function Indexed(index: PhotoIndex, rec: Record): PhotoIndex {
    index[rec.gallery := ListOf(index, rec.gallery) + [rec.photo]]
  }

  lemma ListOneMore(index: PhotoIndex, known: set<UUID>, rec: Record)
    requires ListsAll(index, known) && rec.photo !in known
    ensures ListsAll(Indexed(index, rec), known + {rec.photo})
  {
    var more := Indexed(index, rec);
    forall g ensures !IsUnder(index, g, rec.photo) {
      assert !IsListed(index, rec.photo);
    }
    assert forall g, p :: IsUnder(more, g, p) <==> IsUnder(index, g, p) || (g == rec.gallery && p == rec.photo);
    forall p ensures IsListed(more, p) <==> p in known + {rec.photo} {
      assert rec.photo in more[rec.gallery];
      assert IsListed(index, p) <==> p in known;
      if IsListed(index, p) {
        var g :| g in index && p in index[g];
        assert IsUnder(more, g, p);
      }
      if IsListed(more, p) {
        var g :| g in more && p in more[g];
        assert IsUnder(more, g, p);
      }
    }
    var listed := ListOf(index, rec.gallery);
    assert Distinct(listed) && !IsUnder(index, rec.gallery, rec.photo);
    Extend(listed, rec.photo);
    forall g ensures Distinct(ListOf(more, g)) {
      assert ListOf(more, g) == if g == rec.gallery then listed + [rec.photo] else ListOf(index, g);
      assert Distinct(ListOf(index, g));
    }
  }

  lemma WindowIsWithin<T>(ids: seq<T>, offset: nat, limit: int)
    ensures forall x <- Window(Reversed(ids), offset, limit) :: x in ids
  {
    var rev := Reversed(ids);
    forall x | x in Window(rev, offset, limit) ensures x in ids {
      assert x in rev;
      var k :| 0 <= k < |ids| && rev[k] == x;
      assert ids[|ids| - 1 - k] == x;
    }
  }

  lemma WindowIsKnown(index: PhotoIndex, known: set<UUID>, gallery: UUID, offset: nat, limit: int)
    requires ListsAll(index, known)
    ensures forall id <- Window(Reversed(ListOf(index, gallery)), offset, limit) :: id in known
  {
    WindowIsWithin(ListOf(index, gallery), offset, limit);
    assert forall id <- ListOf(index, gallery) :: IsListed(index, id);
  }

  // ---- A history of saves ----

  /** The k-th save is the last one of its photo. */
  ghost predicate IsLatest(saves: seq<Record>, photo: UUID, k: int) {
    0 <= k < |saves| && saves[k].photo == photo && forall j :: k < j < |saves| ==> saves[j].photo != photo
  }

  ghost predicate WasSaved(saves: seq<Record>, photo: UUID) {
    exists k :: 0 <= k < |saves| && saves[k].photo == photo
  }

  /** A photo is known if and only if it was saved, and with the record it was last saved with. */
  ghost predicate Remembers(records: map<UUID, Record>, saves: seq<Record>) {
    && (forall photo {:trigger WasSaved(saves, photo)} :: photo in records <==> WasSaved(saves, photo))
    && (forall photo, k :: IsLatest(saves, photo, k) ==> photo in records && records[photo] == saves[k])
  }

  /** The photos first saved under a gallery, in the order of these saves. */
  ghost function FirstSaved(saves: seq<Record>, gallery: UUID): seq<UUID> {
    if saves == [] then []
    else
      var before, last := saves[..|saves| - 1], saves[|saves| - 1];
      FirstSaved(before, gallery)
      + (if last.gallery == gallery && !WasSaved(before, last.photo) then [last.photo] else [])
  }

  lemma RememberOneMore(records: map<UUID, Record>, saves: seq<Record>, rec: Record)
    requires Remembers(records, saves)
    ensures Remembers(records[rec.photo := rec], saves + [rec])
  {
    var more := saves + [rec];
    forall photo ensures photo in records[rec.photo := rec] <==> WasSaved(more, photo) {
      assert more[|saves|] == rec;
      if WasSaved(saves, photo) {
        var k :| 0 <= k < |saves| && saves[k].photo == photo;
        assert more[k].photo == photo;
      }
    }
    forall photo, k | IsLatest(more, photo, k)
      ensures photo in records[rec.photo := rec] && records[rec.photo := rec][photo] == more[k]
    {
      if k < |saves| {
        assert more[|saves|].photo != photo;
        assert forall j :: k < j < |saves| ==> more[j] == saves[j];
        assert IsLatest(saves, photo, k);
      }
    }
  }

  lemma {:induction false} LatestExists(saves: seq<Record>, photo: UUID)
    requires WasSaved(saves, photo)
    ensures exists k :: IsLatest(saves, photo, k)
    decreases |saves|
  {
    var n := |saves| - 1;
    if saves[n].photo == photo {
      assert IsLatest(saves, photo, n);
    } else {
      var k :| 0 <= k < |saves| && saves[k].photo == photo;
      assert saves[..n][k].photo == photo;
      LatestExists(saves[..n], photo);
      var l :| IsLatest(saves[..n], photo, l);
      assert forall j :: l < j < n ==> saves[j] == saves[..n][j];
      assert IsLatest(saves, photo, l);
    }
  }

  lemma FirstSavedOneMore(saves: seq<Record>, rec: Record, gallery: UUID)
    ensures FirstSaved(saves + [rec], gallery)
            == FirstSaved(saves, gallery)
               + (if rec.gallery == gallery && !WasSaved(saves, rec.photo) then [rec.photo] else [])
  {
    assert (saves + [rec])[..|saves|] == saves;
  }

  /** Records and index both follow from the saves, and list every photo once. */
  ghost predicate Reflects(index: PhotoIndex, records: map<UUID, Record>, saves: seq<Record>) {
    && ListsAll(index, records.Keys)
    && Remembers(records, saves)
    && forall g :: ListOf(index, g) == FirstSaved(saves, g)
  }

  lemma ReflectOneMore(index: PhotoIndex, records: map<UUID, Record>, saves: seq<Record>, rec: Record)
    requires Reflects(index, records, saves)
    ensures var more := if rec.photo in records then index else Indexed(index, rec);
            && Reflects(more, records[rec.photo := rec], saves + [rec])
            && forall g :: ListOf(more, g) == ListOf(index, g)
                                              + (if g == rec.gallery && rec.photo !in records then [rec.photo] else [])
  {
    RememberOneMore(records, saves, rec);
    if rec.photo !in records {
      ListOneMore(index, records.Keys, rec);
    }
    assert records[rec.photo := rec].Keys == records.Keys + {rec.photo};
    assert rec.photo in records ==> records.Keys + {rec.photo} == records.Keys;
    forall g ensures ListOf(if rec.photo in records then index else Indexed(index, rec), g) == FirstSaved(saves + [rec], g) {
      FirstSavedOneMore(saves, rec, g);
    }
  }
}

/** Uploads in memory, most recent first. */
module Uploads {
  import opened Common
  import opened UploadRecords

  class InMemoryRepository {
    var records: map<UUID, Record>
    var galleryIndex: PhotoIndex

    /** Everything ever saved, in order. */
    ghost var saves: seq<Record>

    ghost function Listed(gallery: UUID): seq<UUID>
      reads this
    {
      ListOf(galleryIndex, gallery)
    }

    ghost predicate Valid()
      reads this
    {
      Reflects(galleryIndex, records, saves)
    }

    constructor ()
      ensures Valid() && records == map[] && galleryIndex == map[] && saves == []
    {
      records, galleryIndex, saves := map[], map[], [];
    }

    method Save(rec: Record)
      requires Valid()
      modifies this
      ensures Valid()
      ensures saves == old(saves) + [rec]
      ensures records == old(records)[rec.photo := rec]
      ensures forall g :: Listed(g) == old(Listed(g))
                                       + (if g == rec.gallery && rec.photo !in old(records) then [rec.photo] else [])
    {
      ReflectOneMore(galleryIndex, records, saves, rec);
      if rec.photo !in records {
        galleryIndex := Indexed(galleryIndex, rec);
      }
      records := records[rec.photo := rec];
      saves := saves + [rec];
    }

    /** Finds a photo if and only if it was ever saved, as it was saved last. */
    method Get(photo: UUID) returns (rec: Option<Record>)
      requires Valid()
      ensures rec.Some? <==> WasSaved(saves, photo)
      ensures rec.Some? ==> exists k :: IsLatest(saves, photo, k) && rec.value == saves[k]
    {
      if photo !in records {
        return None;
      }
      LatestExists(saves, photo);
      return Some(records[photo]);
    }

    method ListByGallery(gallery: UUID, offset: nat, limit: int) returns (page: seq<Record>, total: nat)
      requires Valid()
      ensures total == |Listed(gallery)|
      ensures AreRecordsOf(page, Window(Reversed(Listed(gallery)), offset, limit), records)
    {
      var ids := ListOf(galleryIndex, gallery);
      total := |ids|;
      var reversed := ReverseCopy(ids);
      var from := if offset > total then total else offset;
      var end := from + limit;
      if limit <= 0 || end > total {
        end := total;
      }
      WindowIsKnown(galleryIndex, records.Keys, gallery, offset, limit);
      var window := reversed[from..end];
      assert window == reversed[..][from..end];
      page := Collect(window);
    }

    /** The last loop of `ListByGallery`. */
    method Collect(window: seq<UUID>) returns (page: seq<Record>)
      requires forall id <- window :: id in records
      ensures AreRecordsOf(page, window, records)
    {
      page := [];
      for i := 0 to |window|
        invariant AreRecordsOf(page, window[..i], records)
      {
        if window[i] in records {
          page := page + [records[window[i]]];
        }
      }
      assert window[..|window|] == window;
    }
  }

  /** Copies the identifiers into an array, most recent first. */
  method ReverseCopy(ids: seq<UUID>) returns (reversed: array<UUID>)
    ensures fresh(reversed) && reversed[..] == Reversed(ids)
  {
    var total := |ids|;
    reversed := new UUID[total];
    for i := 0 to total
      invariant forall k :: 0 <= k < i ==> reversed[total - 1 - k] == ids[k]
    {
      reversed[total - 1 - i] := ids[i];
    }
    forall j | 0 <= j < total ensures reversed[j] == Reversed(ids)[j] {
      assert reversed[total - 1 - (total - 1 - j)] == ids[total - 1 - j];
    }
  }

  ghost predicate AreRecordsOf(page: seq<Record>, ids: seq<UUID>, records: map<UUID, Record>) {
    && |page| == |ids|
    && forall i :: 0 <= i < |ids| ==> ids[i] in records && page[i] == records[ids[i]]
  }

  // ---- Listing over the wire ----

  const DEFAULT_PAGE_SIZE := 20
  const MAX_PAGE_SIZE := 100

  /** A page token as its decimal reading: absent, a number, or neither. */
  datatype PageToken = NoToken | Number(n: int) | NotANumber

  function ParsePageToken(token: PageToken): Option<nat> {
    match token
    case NoToken => Some(0)
    case Number(n) => if n < 0 then None else Some(n)
    case NotANumber => None
  }

  function Limit(pageSize: int): int {
    if pageSize <= 0 then DEFAULT_PAGE_SIZE else Smaller(pageSize, MAX_PAGE_SIZE)
  }

  /** The next token after a page, given the number of records in all. */
  function TokenAfter(offset: nat, returned: nat, total: nat): PageToken {
    if offset + returned < total then Number(offset + returned) else NoToken
  }

  datatype Summary = Summary(
    photo: UUID,
    gallery: UUID,
    uploader: UUID,
    storageKey: ObjectKey,
    sizeBytes: int,
    uploadedAt: int)

  function Summarized(rec: Record): Summary {
    Summary(rec.photo, rec.gallery, rec.uploader, rec.storageKey, rec.sizeBytes, rec.uploadedAt)
  }

  datatype Listing = Listing(uploads: seq<Summary>, next: PageToken)

  function Summaries(page: seq<Record>): seq<Summary> {
    seq(|page|, i requires 0 <= i < |page| => Summarized(page[i]))
  }

  /** A summary shows a photo as its record has it. */
  predicate Shows(upload: Summary, photo: UUID, rec: Record) {
    && upload.photo == photo
    && upload.gallery == rec.gallery
    && upload.uploader == rec.uploader
    && upload.storageKey == rec.storageKey
    && upload.sizeBytes == rec.sizeBytes
    && upload.uploadedAt == rec.uploadedAt
  }

  ghost predicate ShowsAll(uploads: seq<Summary>, photos: seq<UUID>, records: map<UUID, Record>) {
    && |uploads| == |photos|
    && forall i :: 0 <= i < |photos| ==> photos[i] in records && Shows(uploads[i], photos[i], records[photos[i]])
  }

  /** The uploads listed are the photos of the requested window, and a token follows exactly
      when photos remain behind it. */
  ghost predicate IsListing(r: Listing, listed: seq<UUID>, records: map<UUID, Record>, offset: nat, limit: int) {
    && ShowsAll(r.uploads, Window(Reversed(listed), offset, limit), records)
    && r.next == if offset + |r.uploads| < |listed| then Number(offset + |r.uploads|) else NoToken
  }

  lemma SummariesShow(page: seq<Record>, photos: seq<UUID>, records: map<UUID, Record>, saves: seq<Record>)
    requires AreRecordsOf(page, photos, records) && Remembers(records, saves)
    ensures ShowsAll(Summaries(page), photos, records)
  {
    forall i | 0 <= i < |photos| ensures Shows(Summaries(page)[i], photos[i], records[photos[i]]) {
      assert WasSaved(saves, photos[i]);
      LatestExists(saves, photos[i]);
    }
  }

  /** `works` is whether the repository answers this query. */
  method ListUploads(repo: InMemoryRepository, gallery: IdText, token: PageToken, pageSize: int, works: bool)
    returns (r: Result<Listing, Code>)
    requires repo.Valid()
    ensures r == Err(InvalidArgument) <==>
              gallery == NoId || token == NotANumber || (token.Number? && token.n < 0)
    ensures r == Err(Internal) <==>
              gallery != NoId && (token == NoToken || (token.Number? && token.n >= 0)) && !works
    ensures r.Err? ==> r.error in {InvalidArgument, Internal}
    ensures r.Ok? ==>
              var listed := repo.Listed(if gallery.IdOf? then gallery.id else gallery.partial);
              IsListing(r.value, listed, repo.records, if token == NoToken then 0 else token.n, Limit(pageSize))
  {
    if gallery == NoId {
      return Err(InvalidArgument);
    }
    var offset := ParsePageToken(token);
    if offset == None {
      return Err(InvalidArgument);
    }
    if !works {
      return Err(Internal);
    }
    var page, total := repo.ListByGallery(GalleryOf(gallery), offset.value, Limit(pageSize));
    var uploads := Summarize(page);
    SummariesShow(page, Window(Reversed(repo.Listed(GalleryOf(gallery))), offset.value, Limit(pageSize)),
                  repo.records, repo.saves);
    return Ok(Listing(uploads, TokenAfter(offset.value, |page|, total)));
  }

  method Summarize(page: seq<Record>) returns (uploads: seq<Summary>)
    ensures uploads == Summaries(page)
  {
    uploads := [];
    for i := 0 to |page|
      invariant uploads == Summaries(page)[..i]
    {
      uploads := uploads + [Summarized(page[i])];
    }
  }
}

/** Walks over a gallery's uploads, page after page, while photos may be saved in between. */
module UploadWalks {
  import opened Common
  import opened UploadRecords
  import opened Uploads

  /** One page of a walk: the photos listed for the gallery when it was read, and the
      requested size. */
  datatype Fetch = Fetch(listed: seq<UUID>, pageSize: int)

  function PageOf(f: Fetch, offset: nat): seq<UUID> {
    Window(Reversed(f.listed), offset, Limit(f.pageSize))
  }

  function NextAt(f: Fetch, offset: nat): PageToken {
    TokenAfter(offset, |PageOf(f, offset)|, |f.listed|)
  }

  /** Photos are only ever added at the end between fetches, starting from `start`. */
  predicate Growing(start: seq<UUID>, fs: seq<Fetch>)
    decreases |fs|
  {
    fs == [] || (start <= fs[0].listed && Growing(fs[0].listed, fs[1..]))
  }

  /** The client hands each page's token back for the next page; the last page has none. */
  predicate Walk(fs: seq<Fetch>, token: PageToken)
    decreases |fs|
  {
    fs != [] && ParsePageToken(token).Some? &&
    var next := NextAt(fs[0], ParsePageToken(token).value);
    if |fs| == 1 then next == NoToken else next != NoToken && Walk(fs[1..], next)
  }

  /** The photos on the pages of a walk. */
  function Returned(fs: seq<Fetch>, token: PageToken): seq<UUID>
    decreases |fs|
  {
    if fs == [] || ParsePageToken(token) == None then []
    else
      var offset := ParsePageToken(token).value;
      PageOf(fs[0], offset) + Returned(fs[1..], NextAt(fs[0], offset))
  }

  /** The same walk by its offsets. */
  predicate WalkAt(fs: seq<Fetch>, offset: nat) {
    fs != [] &&
    (if |fs| == 1 then NextAt(fs[0], offset) == NoToken
     else NextAt(fs[0], offset).Number? && WalkAt(fs[1..], offset + |PageOf(fs[0], offset)|))
  }

  function ReturnedAt(fs: seq<Fetch>, offset: nat): seq<UUID> {
    if fs == [] then []
    else PageOf(fs[0], offset) + ReturnedAt(fs[1..], offset + |PageOf(fs[0], offset)|)
  }

  /** A token that is handed out leads to exactly the offset after the photos returned so far. */
  lemma TokenLeadsOn(f: Fetch, offset: nat)
    requires NextAt(f, offset) != NoToken
    ensures ParsePageToken(NextAt(f, offset)) == Some(offset + |PageOf(f, offset)|)
  {
  }

  lemma {:induction false} TokensAreOffsets(fs: seq<Fetch>, token: PageToken, offset: nat)
    requires ParsePageToken(token) == Some(offset)
    ensures Walk(fs, token) <==> WalkAt(fs, offset)
    ensures Walk(fs, token) ==> Returned(fs, token) == ReturnedAt(fs, offset)
    decreases |fs|
  {
    if fs != [] {
      var next := NextAt(fs[0], offset);
      if next == NoToken {
        assert |fs| == 1 ==> fs[1..] == [];
      } else {
        TokenLeadsOn(fs[0], offset);
        TokensAreOffsets(fs[1..], next, offset + |PageOf(fs[0], offset)|);
      }
    }
  }

  /** A page is the next stretch of the reversed listing; it is the last one when it reaches
      the end. */
  lemma PageIsStretch(f: Fetch, offset: nat)
    requires offset <= |f.listed|
    ensures var end := offset + |PageOf(f, offset)|;
            && end <= |f.listed|
            && PageOf(f, offset) == Reversed(f.listed)[offset..end]
            && (NextAt(f, offset) == NoToken <==> end == |f.listed|)
            && (NextAt(f, offset).Number? ==> NextAt(f, offset).n == end > offset)
  {
  }

  lemma PageAt(f: Fetch, offset: nat, k: nat)
    requires offset <= |f.listed| && k < |PageOf(f, offset)|
    ensures offset + k < |f.listed|
    ensures PageOf(f, offset)[k] == f.listed[|f.listed| - 1 - offset - k]
  {
    PageIsStretch(f, offset);
    assert PageOf(f, offset)[k] == Reversed(f.listed)[offset + k];
  }

  /** A photo listed at the start that the walk has not yet passed is returned later. */
  lemma {:induction false} NotPassedIsReturned(start: seq<UUID>, fs: seq<Fetch>, offset: nat, i: nat)
    requires Growing(start, fs) && WalkAt(fs, offset)
    requires i < |start| && offset <= |start| - 1 - i
    ensures start[i] in ReturnedAt(fs, offset)
    decreases |fs|
  {
    var now := fs[0].listed;
    var end := offset + |PageOf(fs[0], offset)|;
    var at := |now| - 1 - i;
    assert now[i] == start[i];
    PageIsStretch(fs[0], offset);
    if at < end {
      PageAt(fs[0], offset, at - offset);
    } else {
      NotPassedIsReturned(now, fs[1..], end, i);
    }
  }

  /** However many photos are saved while a walk goes on, it misses none of those that were
      there when it started. */
  lemma WalkMissesNothing(start: seq<UUID>, fs: seq<Fetch>)
    requires Growing(start, fs) && Walk(fs, NoToken)
    ensures forall photo <- start :: photo in Returned(fs, NoToken)
  {
    TokensAreOffsets(fs, NoToken, 0);
    forall photo | photo in start ensures photo in ReturnedAt(fs, 0) {
      var i :| 0 <= i < |start| && start[i] == photo;
      NotPassedIsReturned(start, fs, 0, i);
    }
  }

  predicate Unchanging(listed: seq<UUID>, fs: seq<Fetch>) {
    forall f <- fs :: f.listed == listed
  }

  lemma WindowAndRest(s: seq<UUID>, offset: nat, limit: int)
    requires offset <= |s| && limit > 0
    ensures var end := offset + |Window(s, offset, limit)|;
            && end <= |s|
            && Window(s, offset, limit) + s[end..] == s[offset..]
            && (offset == end ==> end == |s|)
  {
  }

  lemma FirstOfWalk(fs: seq<Fetch>, offset: nat)
    requires WalkAt(fs, offset) && offset <= |fs[0].listed|
    ensures var end := offset + |PageOf(fs[0], offset)|;
            && end <= |fs[0].listed|
            && PageOf(fs[0], offset) + Reversed(fs[0].listed)[end..] == Reversed(fs[0].listed)[offset..]
            && if |fs| == 1 then end == |fs[0].listed| else offset < end && WalkAt(fs[1..], end)
  {
    PageIsStretch(fs[0], offset);
    WindowAndRest(Reversed(fs[0].listed), offset, Limit(fs[0].pageSize));
  }

  lemma FirstReturned(fs: seq<Fetch>, offset: nat)
    requires fs != []
    ensures ReturnedAt(fs, offset) == PageOf(fs[0], offset) + ReturnedAt(fs[1..], offset + |PageOf(fs[0], offset)|)
  {
  }

  lemma {:induction false} QuietWalkFrom(listed: seq<UUID>, fs: seq<Fetch>, offset: nat)
    requires Unchanging(listed, fs) && WalkAt(fs, offset) && offset <= |listed|
    ensures ReturnedAt(fs, offset) == Reversed(listed)[offset..]
    decreases |fs|
  {
    assert fs[0] in fs;
    FirstOfWalk(fs, offset);
    var page, rest := PageOf(fs[0], offset), fs[1..];
    var end := offset + |page|;
    if |fs| > 1 {
      assert forall f <- rest :: f in fs;
      QuietWalkFrom(listed, rest, end);
    }
    FirstReturned(fs, offset);
    assert ReturnedAt(rest, end) == Reversed(listed)[end..];
  }

  lemma {:induction false} QuietWalkLength(listed: seq<UUID>, fs: seq<Fetch>, offset: nat)
    requires Unchanging(listed, fs) && WalkAt(fs, offset) && offset <= |listed|
    ensures |fs| == 1 || |fs| <= |listed| - offset
    decreases |fs|
  {
    assert fs[0] in fs;
    FirstOfWalk(fs, offset);
    if |fs| > 1 {
      assert forall f <- fs[1..] :: f in fs;
      QuietWalkLength(listed, fs[1..], offset + |PageOf(fs[0], offset)|);
    }
  }

  /** With no saves, the pages of a walk, of whatever sizes, are together exactly the photos
      in reverse order of saving, and there are at most as many pages as photos. */
  lemma QuietWalkIsReversedOrder(listed: seq<UUID>, fs: seq<Fetch>)
    requires Unchanging(listed, fs) && Walk(fs, NoToken)
    ensures Returned(fs, NoToken) == Reversed(listed)
    ensures |fs| == 1 || |fs| <= |listed|
  {
    TokensAreOffsets(fs, NoToken, 0);
    QuietWalkFrom(listed, fs, 0);
    QuietWalkLength(listed, fs, 0);
  }

  /** A page that is followed by another is full: it holds as many photos as asked for within
      1 and 100, twenty when no size is given. So following tokens makes progress. */
  lemma TokensMakeProgress(f: Fetch, offset: nat)
    requires offset <= |f.listed| && NextAt(f, offset) != NoToken
    ensures ParsePageToken(NextAt(f, offset)) == Some(offset + |PageOf(f, offset)|)
    ensures |PageOf(f, offset)| == if f.pageSize <= 0 then 20 else if f.pageSize <= 100 then f.pageSize else 100
  {
  }

  // ---- When a walk repeats photos ----

  lemma {:induction false} LastListsMost(start: seq<UUID>, fs: seq<Fetch>)
    requires fs != [] && Growing(start, fs)
    ensures start <= fs[0].listed <= fs[|fs| - 1].listed
    decreases |fs|
  {
    if |fs| > 1 {
      LastListsMost(fs[0].listed, fs[1..]);
    }
  }

  /** A walk returns as many photos as its last fetch lists. */
  lemma {:induction false} ReturnedCount(start: seq<UUID>, fs: seq<Fetch>, offset: nat)
    requires Growing(start, fs) && WalkAt(fs, offset) && offset <= |fs[0].listed|
    ensures |ReturnedAt(fs, offset)| == |fs[|fs| - 1].listed| - offset
    decreases |fs|
  {
    FirstReturned(fs, offset);
    FirstOfWalk(fs, offset);
    if |fs| > 1 {
      LastListsMost(fs[0].listed, fs[1..]);
      ReturnedCount(fs[0].listed, fs[1..], offset + |PageOf(fs[0], offset)|);
    }
  }

  ghost predicate Within(ids: seq<UUID>, pool: seq<UUID>) {
    forall id <- ids :: id in pool
  }

  lemma WithinBoth(a: seq<UUID>, b: seq<UUID>, pool: seq<UUID>)
    requires Within(a, pool) && Within(b, pool)
    ensures Within(a + b, pool)
  {
  }

  lemma PageLeavesNewestOut(f: Fetch, offset: nat, all: seq<UUID>)
    requires offset <= |f.listed| && f.listed <= all && all != [] && (offset > 0 || |f.listed| < |all|)
    ensures Within(PageOf(f, offset), all[..|all| - 1])
  {
    forall photo | photo in PageOf(f, offset) ensures photo in all[..|all| - 1] {
      var k :| 0 <= k < |PageOf(f, offset)| && PageOf(f, offset)[k] == photo;
      PageAt(f, offset, k);
      assert all[..|all| - 1][|f.listed| - 1 - offset - k] == photo;
    }
  }

  /** Beyond its first page a walk never gets to the photo saved last. */
  lemma {:induction false} NewestIsLeftOut(start: seq<UUID>, fs: seq<Fetch>, offset: nat, all: seq<UUID>)
    requires Growing(start, fs) && WalkAt(fs, offset) && offset <= |fs[0].listed|
    requires all == fs[|fs| - 1].listed && all != [] && (offset > 0 || |fs[0].listed| < |all|)
    ensures Within(ReturnedAt(fs, offset), all[..|all| - 1])
    decreases |fs|
  {
    LastListsMost(start, fs);
    FirstReturned(fs, offset);
    FirstOfWalk(fs, offset);
    PageLeavesNewestOut(fs[0], offset, all);
    var end := offset + |PageOf(fs[0], offset)|;
    if |fs| > 1 {
      LastListsMost(fs[0].listed, fs[1..]);
      NewestIsLeftOut(fs[0].listed, fs[1..], end, all);
    }
    WithinBoth(PageOf(fs[0], offset), ReturnedAt(fs[1..], end), all[..|all| - 1]);
  }

  lemma {:induction false} NothingSavedMeanwhile(start: seq<UUID>, fs: seq<Fetch>, listed: seq<UUID>)
    requires fs != [] && Growing(start, fs) && fs[0].listed == fs[|fs| - 1].listed == listed
    ensures Unchanging(listed, fs)
    decreases |fs|
  {
    if |fs| > 1 {
      LastListsMost(fs[0].listed, fs[1..]);
      NothingSavedMeanwhile(fs[0].listed, fs[1..], listed);
      assert forall f <- fs :: f == fs[0] || f in fs[1..];
    }
  }

  lemma ReversedIsDistinct(s: seq<UUID>)
    requires Distinct(s)
    ensures Distinct(Reversed(s))
  {
  }

  /** A walk returns each photo once if and only if none was saved between its first fetch
      and its last. */
  lemma WalkRepeatsIff(start: seq<UUID>, fs: seq<Fetch>)
    requires Growing(start, fs) && Walk(fs, NoToken) && Distinct(fs[|fs| - 1].listed)
    ensures Distinct(Returned(fs, NoToken)) <==> fs[|fs| - 1].listed == fs[0].listed
  {
    TokensAreOffsets(fs, NoToken, 0);
    var all := fs[|fs| - 1].listed;
    LastListsMost(start, fs);
    if all == fs[0].listed {
      NothingSavedMeanwhile(start, fs, all);
      QuietWalkIsReversedOrder(all, fs);
      ReversedIsDistinct(all);
    } else {
      ReturnedCount(start, fs, 0);
      NewestIsLeftOut(start, fs, 0, all);
      if Distinct(ReturnedAt(fs, 0)) {
        Pigeonhole(ReturnedAt(fs, 0), all[..|all| - 1]);
      }
    }
  }

  /** A walk by ones over two photos, with one more saved after its first page. */
  const OVERTAKEN := [Fetch([1, 2], 1), Fetch([1, 2, 3], 1), Fetch([1, 2, 3], 1)]

  lemma PageOfOne(listed: seq<UUID>, offset: nat)
    requires offset < |listed|
    ensures PageOf(Fetch(listed, 1), offset) == [listed[|listed| - 1 - offset]]
    ensures NextAt(Fetch(listed, 1), offset) == if offset + 1 < |listed| then Number(offset + 1) else NoToken
  {
    var rev := Reversed(listed);
    assert rev[offset..offset + 1] == [rev[offset]];
  }

  lemma OvertakenPages()
    ensures Growing([1, 2], OVERTAKEN)
    ensures PageOf(OVERTAKEN[0], 0) == PageOf(OVERTAKEN[1], 1) == [2] && PageOf(OVERTAKEN[2], 2) == [1]
    ensures NextAt(OVERTAKEN[0], 0) == Number(1) && NextAt(OVERTAKEN[1], 1) == Number(2) && NextAt(OVERTAKEN[2], 2) == NoToken
  {
    PageOfOne([1, 2], 0);
    PageOfOne([1, 2, 3], 1);
    PageOfOne([1, 2, 3], 2);
    assert Growing([1, 2, 3], OVERTAKEN[1..][1..]);
    assert Growing([1, 2], OVERTAKEN[1..]);
  }

  /** Such a walk shows a photo twice. */
  lemma OvertakenWalkRepeats()
    ensures Growing([1, 2], OVERTAKEN) && Walk(OVERTAKEN, NoToken)
    ensures Returned(OVERTAKEN, NoToken) == [2, 2, 1]
  {
    TokensAreOffsets(OVERTAKEN, NoToken, 0);
    OvertakenPages();
    var two, one := OVERTAKEN[1..], OVERTAKEN[1..][1..];
    assert two[0] == OVERTAKEN[1] && one[0] == OVERTAKEN[2] && |one| == 1;
    FirstReturned(one, 2);
    FirstReturned(two, 1);
    FirstReturned(OVERTAKEN, 0);
    assert WalkAt(one, 2);
    assert WalkAt(two, 1);
  }

  predicate Overlap(p: seq<UUID>, q: seq<UUID>) {
    exists k, l :: 0 <= k < |p| && 0 <= l < |q| && p[k] == q[l]
  }

  /** Two stretches of a list without repetitions, read backwards from `x` and from `y`. */
  lemma StretchesMeet(s: seq<UUID>, x: int, p: seq<UUID>, y: int, q: seq<UUID>)
    requires Distinct(s)
    requires forall k :: 0 <= k < |p| ==> 0 <= x - k < |s| && p[k] == s[x - k]
    requires forall l :: 0 <= l < |q| ==> 0 <= y - l < |s| && q[l] == s[y - l]
    ensures Overlap(p, q) <==> p != [] && q != [] && x - |p| < y && y - |q| < x
  {
    if p != [] && q != [] && x - |p| < y && y - |q| < x {
      var k, l := if x <= y then 0 else x - y, if x <= y then y - x else 0;
      assert p[k] == q[l];
    }
  }

  /** Two consecutive pages show a photo twice exactly when photos were saved between them,
      fewer than the two pages hold together. */
  lemma RepeatsIff(first: Fetch, second: Fetch, offset: nat)
    requires first.listed <= second.listed && offset <= |first.listed|
    requires Distinct(second.listed)
    requires NextAt(first, offset) != NoToken
    ensures ParsePageToken(NextAt(first, offset)).Some?
    ensures var p, q := PageOf(first, offset), PageOf(second, ParsePageToken(NextAt(first, offset)).value);
            var saved := |second.listed| - |first.listed|;
            Overlap(p, q) <==> 0 < saved < |p| + |q|
  {
    PageIsStretch(first, offset);
    var n := offset + |PageOf(first, offset)|;
    TokenLeadsOn(first, offset);
    PageIsStretch(second, n);
    var p, q := PageOf(first, offset), PageOf(second, n);
    forall k | 0 <= k < |p| ensures p[k] == second.listed[|first.listed| - 1 - offset - k] {
      PageAt(first, offset, k);
    }
    forall l | 0 <= l < |q| ensures q[l] == second.listed[|second.listed| - 1 - n - l] {
      PageAt(second, n, l);
    }
    StretchesMeet(second.listed, |first.listed| - 1 - offset, p, |second.listed| - 1 - n, q);
  }

  // ---- Walks through the operation itself ----

  lemma WindowContinues(s: seq<UUID>, offset: nat, limit: int)
    requires offset <= |s|
    ensures offset + |Window(s, offset, limit)| <= |s|
    ensures s[..offset] + Window(s, offset, limit) == s[..offset + |Window(s, offset, limit)|]
  {
  }

  lemma ShowsBoth(a: seq<Summary>, p: seq<UUID>, b: seq<Summary>, q: seq<UUID>, records: map<UUID, Record>)
    requires ShowsAll(a, p, records) && ShowsAll(b, q, records)
    ensures ShowsAll(a + b, p + q, records)
  {
    forall i | 0 <= i < |p + q|
      ensures (p + q)[i] in records && Shows((a + b)[i], (p + q)[i], records[(p + q)[i]])
    {
      if i < |p| {
        assert (p + q)[i] == p[i] && (a + b)[i] == a[i];
      } else {
        assert (p + q)[i] == q[i - |p|] && (a + b)[i] == b[i - |p|];
      }
    }
  }

  lemma OneMorePage(uploads: seq<Summary>, page: seq<Summary>, all: seq<UUID>, records: map<UUID, Record>, limit: int)
    requires |uploads| <= |all|
    requires ShowsAll(uploads, all[..|uploads|], records)
    requires ShowsAll(page, Window(all, |uploads|, limit), records)
    ensures |uploads + page| <= |all|
    ensures ShowsAll(uploads + page, all[..|uploads + page|], records)
  {
    var window := Window(all, |uploads|, limit);
    WindowContinues(all, |uploads|, limit);
    ShowsBoth(uploads, all[..|uploads|], page, window, records);
    assert |uploads + page| == |uploads| + |window|;
  }

  /** A client that hands each answer's token back until there is none comes to an end, and
      has then been shown exactly the gallery's photos, most recent first, in at most as many
      pages as photos; `sizes` are the page sizes it asks for. */
  method ListAll(repo: InMemoryRepository, gallery: UUID, sizes: nat -> int)
    returns (uploads: seq<Summary>, pages: nat)
    requires repo.Valid()
    ensures ShowsAll(uploads, Reversed(repo.Listed(gallery)), repo.records)
    ensures pages == 1 || pages <= |repo.Listed(gallery)|
  {
    ghost var listed := repo.Listed(gallery);
    var token, more := NoToken, true;
    uploads, pages := [], 0;
    while more
      invariant |uploads| <= |listed|
      invariant ShowsAll(uploads, Reversed(listed)[..|uploads|], repo.records)
      invariant if more then token == (if pages == 0 then NoToken else Number(|uploads|)) else |uploads| == |listed|
      invariant pages == 0 ==> more && uploads == []
      invariant more ==> pages <= |uploads| && (pages > 0 ==> |uploads| < |listed|)
      invariant pages <= 1 || pages <= |listed|
      decreases |listed| - |uploads|, more
    {
      var r := ListUploads(repo, IdOf(gallery), token, sizes(pages), true);
      OneMorePage(uploads, r.value.uploads, Reversed(listed), repo.records, Limit(sizes(pages)));
      uploads := uploads + r.value.uploads;
      token, more, pages := r.value.next, r.value.next != NoToken, pages + 1;
    }
    assert Reversed(listed)[..|listed|] == Reversed(listed);
  }

  /** One round of a walk: other uploads are saved, then a page is read. */
  datatype Round = Round(saved: seq<Record>, pageSize: int)

  method SaveAll(repo: InMemoryRepository, saved: seq<Record>)
    requires repo.Valid()
    modifies repo
    ensures repo.Valid()
    ensures forall g :: old(repo.Listed(g)) <= repo.Listed(g)
    ensures saved == [] ==> forall g :: repo.Listed(g) == old(repo.Listed(g))
  {
    for i := 0 to |saved|
      invariant repo.Valid()
      invariant forall g :: old(repo.Listed(g)) <= repo.Listed(g)
      invariant i == 0 ==> forall g :: repo.Listed(g) == old(repo.Listed(g))
    {
      repo.Save(saved[i]);
    }
  }

  method PhotosOf(uploads: seq<Summary>) returns (photos: seq<UUID>)
    ensures |photos| == |uploads| && forall i :: 0 <= i < |uploads| ==> photos[i] == uploads[i].photo
  {
    photos := [];
    for i := 0 to |uploads|
      invariant |photos| == i && forall k :: 0 <= k < i ==> photos[k] == uploads[k].photo
    {
      photos := photos + [uploads[i].photo];
    }
  }

  method PlayRound(repo: InMemoryRepository, gallery: UUID, token: PageToken, round: Round)
    returns (photos: seq<UUID>, next: PageToken, ghost f: Fetch)
    requires repo.Valid() && (token.Number? ==> token.n >= 0) && token != NotANumber
    modifies repo
    ensures repo.Valid()
    ensures old(repo.Listed(gallery)) <= repo.Listed(gallery)
    ensures round.saved == [] ==> repo.Listed(gallery) == old(repo.Listed(gallery))
    ensures f == Fetch(repo.Listed(gallery), round.pageSize)
    ensures photos == PageOf(f, ParsePageToken(token).value) && next == NextAt(f, ParsePageToken(token).value)
  {
    SaveAll(repo, round.saved);
    var r := ListUploads(repo, IdOf(gallery), token, round.pageSize, true);
    photos := PhotosOf(r.value.uploads);
    next, f := r.value.next, Fetch(repo.Listed(gallery), round.pageSize);
  }

  lemma WalkGoesOn(f: Fetch, rest: seq<Fetch>, token: PageToken)
    requires ParsePageToken(token).Some? && NextAt(f, ParsePageToken(token).value) != NoToken
    ensures var next := NextAt(f, ParsePageToken(token).value);
            && (Walk(rest, next) ==> Walk([f] + rest, token))
            && Returned([f] + rest, token) == PageOf(f, ParsePageToken(token).value) + Returned(rest, next)
    ensures forall start :: start <= f.listed && Growing(f.listed, rest) ==> Growing(start, [f] + rest)
  {
    assert ([f] + rest)[1..] == rest;
  }

  /** Follows the tokens for as many rounds as there are, or until there is none. */
  method FollowTokens(repo: InMemoryRepository, gallery: UUID, token: PageToken, rounds: seq<Round>)
    returns (photos: seq<UUID>, complete: bool, ghost fs: seq<Fetch>)
    requires repo.Valid() && (token.Number? ==> token.n >= 0) && token != NotANumber
    modifies repo
    ensures repo.Valid()
    ensures Growing(old(repo.Listed(gallery)), fs)
    ensures complete ==> rounds != []
    ensures complete ==>
              && Walk(fs, token) && photos == Returned(fs, token)
              && fs[|fs| - 1].listed == repo.Listed(gallery)
              && (rounds[0].saved == [] ==> fs[0].listed == old(repo.Listed(gallery)))
    decreases |rounds|
  {
    if rounds == [] {
      return [], false, [];
    }
    ghost var f;
    var next;
    photos, next, f := PlayRound(repo, gallery, token, rounds[0]);
    fs := [f];
    complete := next == NoToken;
    if !complete {
      var more, done, rest := FollowTokens(repo, gallery, next, rounds[1..]);
      WalkGoesOn(f, rest, token);
      photos, complete, fs := photos + more, done, fs + rest;
    }
  }

  /** A client that reaches the last page, with any saves by others before each of its calls,
      has been shown every photo that was listed when it began; and each once if and only if
      none was added to the gallery since its first page. */
  method ListWhileOthersUpload(repo: InMemoryRepository, gallery: UUID, rounds: seq<Round>)
    returns (photos: seq<UUID>, complete: bool)
    requires repo.Valid()
    modifies repo
    ensures repo.Valid()
    ensures complete ==> rounds != []
    ensures complete ==> forall photo <- old(repo.Listed(gallery)) :: photo in photos
    ensures complete && rounds[0].saved == [] ==>
              (Distinct(photos) <==> repo.Listed(gallery) == old(repo.Listed(gallery)))
  {
    ghost var fs;
    photos, complete, fs := FollowTokens(repo, gallery, NoToken, rounds);
    if complete {
      WalkMissesNothing(old(repo.Listed(gallery)), fs);
      WalkRepeatsIff(old(repo.Listed(gallery)), fs);
    }
  }
}
