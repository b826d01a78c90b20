/** The message stream of one upload: what the gateway sends and what the server assembles. */
module UploadStream {
  import opened Common

  newtype byte = n: int | 0 <= n < 256

  const MAX_PHOTO_BYTES := 25 * 1024 * 1024
  const CHUNK_SIZE := 64 * 1024

  datatype Metadata = Metadata(gallery: IdText, filename: string, contentType: string, totalSize: int)

  datatype Message = Meta(meta: Metadata) | Chunk(data: seq<byte>) | Unknown

  /** How the stream ended: the client closed it, or receiving failed. */
  datatype Ending = Eof | Broken

  datatype Refusal =
    | ReceiveFailed
    | MetadataTwice
    | DeclaredTooLarge
    | DataBeforeMetadata
    | TooLarge
    | UnknownPayload
    | NoMetadata
    | NoGallery
    | NoData
    | SizeMismatch

  function CodeOf(refusal: Refusal): Code {
    if refusal == ReceiveFailed then Internal else InvalidArgument
  }

  /** All chunk bytes of a stream, in order. */
  function Bytes(msgs: seq<Message>): seq<byte> {
    if msgs == [] then []
    else Bytes(msgs[..|msgs| - 1]) + (if msgs[|msgs| - 1].Chunk? then msgs[|msgs| - 1].data else [])
  }

  lemma BytesGrow(msgs: seq<Message>, msg: Message)
    ensures Bytes(msgs + [msg]) == Bytes(msgs) + (if msg.Chunk? then msg.data else [])
  {
    assert (msgs + [msg])[..|msgs|] == msgs;
  }

  /** Nothing has been wrong so far: metadata first and only first, with an admissible
      declared size, and no more data than the cap. */
  predicate InShape(msgs: seq<Message>) {
    && (msgs != [] ==> msgs[0].Meta? && msgs[0].meta.totalSize <= MAX_PHOTO_BYTES)
    && (forall i :: 0 < i < |msgs| ==> msgs[i].Chunk?)
    && |Bytes(msgs)| <= MAX_PHOTO_BYTES
  }

  /** A complete stream that may go on to be stored. */
  predicate Acceptable(msgs: seq<Message>, ending: Ending) {
    && ending == Eof
    && InShape(msgs)
    && msgs != []
    && msgs[0].meta.gallery != NoId
    && Bytes(msgs) != []
    && (msgs[0].meta.totalSize > 0 ==> msgs[0].meta.totalSize == |Bytes(msgs)|)
  }

  /** The message after a prefix in shape is the first wrong one, for the reason given. */
  predicate Offends(before: seq<Message>, msg: Message, why: Refusal) {
    match msg
    case Meta(meta) =>
      if before != [] then why == MetadataTwice
      else meta.totalSize > MAX_PHOTO_BYTES && why == DeclaredTooLarge
    case Chunk(data) =>
      if before == [] then why == DataBeforeMetadata
      else |Bytes(before)| + |data| > MAX_PHOTO_BYTES && why == TooLarge
    case Unknown => why == UnknownPayload
  }

  /** Why a stream is refused: its first wrong message, else a failed receive, else the first
      failed check on the whole. */
  ghost predicate Explains(msgs: seq<Message>, ending: Ending, why: Refusal) {
    if InShape(msgs) then
      if ending == Broken then why == ReceiveFailed
      else if msgs == [] then why == NoMetadata
      else if msgs[0].meta.gallery == NoId then why == NoGallery
      else if Bytes(msgs) == [] then why == NoData
      else msgs[0].meta.totalSize > 0 && msgs[0].meta.totalSize != |Bytes(msgs)| && why == SizeMismatch
    else
      exists k :: 0 <= k < |msgs| && InShape(msgs[..k]) && Offends(msgs[..k], msgs[k], why)
  }

  /** Only a broken receive is the server's own fault. */
  lemma CodeOfRefusal(msgs: seq<Message>, ending: Ending, why: Refusal)
    requires !Acceptable(msgs, ending) && Explains(msgs, ending, why)
    ensures CodeOf(why) == if InShape(msgs) && ending == Broken then Internal else InvalidArgument
  {
  }

  lemma ShapeGrows(msgs: seq<Message>, msg: Message)
    requires InShape(msgs)
    ensures InShape(msgs + [msg]) <==> forall why :: !Offends(msgs, msg, why)
  {
    BytesGrow(msgs, msg);
    var more := msgs + [msg];
    if !InShape(more) {
      var why := match msg
                 case Meta(_) => if msgs != [] then MetadataTwice else DeclaredTooLarge
                 case Chunk(_) => if msgs == [] then DataBeforeMetadata else TooLarge
                 case Unknown => UnknownPayload;
      assert Offends(msgs, msg, why);
    }
    if InShape(more) && msgs != [] {
      assert more[|msgs|].Chunk?;
    }
  }

  /** Once out of shape, a stream stays so. */
  lemma {:induction false} PrefixInShape(msgs: seq<Message>, k: nat)
    requires InShape(msgs) && k <= |msgs|
    ensures InShape(msgs[..k]) && |Bytes(msgs[..k])| <= |Bytes(msgs)|
    decreases |msgs| - k
  {
    if k == |msgs| {
      assert msgs[..k] == msgs;
    } else {
      PrefixInShape(msgs, k + 1);
      assert msgs[..k + 1] == msgs[..k] + [msgs[k]];
      BytesGrow(msgs[..k], msgs[k]);
    }
  }

  datatype Assembled = Assembled(meta: Metadata, data: seq<byte>)

  /** How many messages are taken before the first wrong one. */
  predicate LongestInShape(msgs: seq<Message>, n: nat) {
    && n <= |msgs|
    && InShape(msgs[..n])
    && (n < |msgs| ==> !InShape(msgs[..n + 1]))
  }

  /** What the server keeps of a stream while it receives it; `taken` are the messages so far. */
  class Assembler {
    var meta: Option<Metadata>
    var buf: seq<byte>
    ghost var taken: seq<Message>

    /** The buffer is always the data received so far, and never more than the cap. */
    ghost predicate Valid()
      reads this
    {
      && InShape(taken)
      && meta == (if taken == [] then None else Some(taken[0].meta))
      && buf == Bytes(taken)
      && |buf| <= MAX_PHOTO_BYTES
    }

    constructor ()
      ensures Valid() && taken == []
    {
      meta, buf, taken := None, [], [];
    }

    /** Takes one message, or refuses it and keeps what there is: data is checked against the
        cap before it is written. */
    method Take(msg: Message) returns (offence: Option<Refusal>)
      requires Valid()
      modifies this
      ensures Valid()
      ensures offence == None <==> InShape(old(taken) + [msg])
      ensures offence == None ==>
                taken == old(taken) + [msg] && buf == old(buf) + (if msg.Chunk? then msg.data else [])
      ensures offence.Some? ==>
                && Offends(old(taken), msg, offence.value)
                && taken == old(taken) && buf == old(buf) && meta == old(meta)
    {
      ShapeGrows(taken, msg);
      BytesGrow(taken, msg);
      match msg {
        case Meta(m) =>
          if meta.Some? {
            return Some(MetadataTwice);
          }
          if m.totalSize > MAX_PHOTO_BYTES {
            return Some(DeclaredTooLarge);
          }
          meta := Some(m);
        case Chunk(data) =>
          if meta == None {
            return Some(DataBeforeMetadata);
          }
          if |buf| + |data| > MAX_PHOTO_BYTES {
            return Some(TooLarge);
          }
          buf := buf + data;
        case Unknown =>
          return Some(UnknownPayload);
      }
      taken := taken + [msg];
      return None;
    }
  }

  /** The lengths of the buffer when 0, 1, 2, ... messages have been taken: always those of the
      data received, and within the cap. */
  ghost predicate BufferSizes(sizes: seq<nat>, msgs: seq<Message>) {
    && 0 < |sizes| <= |msgs| + 1
    && forall k :: 0 <= k < |sizes| ==> sizes[k] == |Bytes(msgs[..k])| <= MAX_PHOTO_BYTES
  }

  lemma OneMoreSize(sizes: seq<nat>, msgs: seq<Message>, n: nat)
    requires BufferSizes(sizes, msgs) && |sizes| <= |msgs|
    requires n == |Bytes(msgs[..|sizes|])| <= MAX_PHOTO_BYTES
    ensures BufferSizes(sizes + [n], msgs)
  {
  }

  /** The server's receive loop and the checks after it. `sizes[k]` is the length of the
      buffer when `k` messages have been taken; a message is taken unless it is the first
      wrong one. */
  method Receive(msgs: seq<Message>, ending: Ending) returns (r: Result<Assembled, Refusal>, ghost sizes: seq<nat>)
    ensures r.Ok? <==> Acceptable(msgs, ending)
    ensures r.Ok? ==> r.value == Assembled(msgs[0].meta, Bytes(msgs))
    ensures r.Err? ==> Explains(msgs, ending, r.error)
    ensures BufferSizes(sizes, msgs) && LongestInShape(msgs, |sizes| - 1)
  {
    var assembler := new Assembler();
    sizes := [|assembler.buf|];
    for i := 0 to |msgs|
      invariant fresh(assembler) && assembler.Valid() && assembler.taken == msgs[..i]
      invariant |sizes| == i + 1 && BufferSizes(sizes, msgs)
    {
      assert msgs[..i + 1] == msgs[..i] + [msgs[i]];
      var offence := assembler.Take(msgs[i]);
      if offence.Some? {
        FirstOffence(msgs, ending, i, offence.value);
        return Err(offence.value), sizes;
      }
      OneMoreSize(sizes, msgs, |assembler.buf|);
      sizes := sizes + [|assembler.buf|];
    }
    assert msgs[..|msgs|] == msgs;
    r := CheckWhole(msgs, ending, assembler.meta, assembler.buf);
  }

  /** The checks on a stream that ended. */
  method CheckWhole(ghost msgs: seq<Message>, ending: Ending, meta: Option<Metadata>, buf: seq<byte>)
    returns (r: Result<Assembled, Refusal>)
    requires InShape(msgs) && buf == Bytes(msgs)
    requires meta == if msgs == [] then None else Some(msgs[0].meta)
    ensures r.Ok? <==> Acceptable(msgs, ending)
    ensures r.Ok? ==> r.value == Assembled(msgs[0].meta, Bytes(msgs))
    ensures r.Err? ==> Explains(msgs, ending, r.error)
  {
    if ending == Broken {
      return Err(ReceiveFailed);
    }
    if meta == None {
      return Err(NoMetadata);
    }
    if meta.value.gallery == NoId {
      return Err(NoGallery);
    }
    if |buf| == 0 {
      return Err(NoData);
    }
    if meta.value.totalSize > 0 && |buf| != meta.value.totalSize {
      return Err(SizeMismatch);
    }
    return Ok(Assembled(meta.value, buf));
  }

  lemma FirstOffence(msgs: seq<Message>, ending: Ending, k: nat, why: Refusal)
    requires k < |msgs| && InShape(msgs[..k]) && Offends(msgs[..k], msgs[k], why)
    ensures !Acceptable(msgs, ending) && Explains(msgs, ending, why)
  {
    assert msgs[..k + 1] == msgs[..k] + [msgs[k]];
    ShapeGrows(msgs[..k], msgs[k]);
    if InShape(msgs) {
      PrefixInShape(msgs, k + 1);
    }
  }

  /** A stream whose gallery identifier is malformed is as acceptable as any other. */
  lemma MalformedGalleryIsAccepted(partial: UUID)
    ensures Acceptable([Meta(Metadata(BadId(partial), "", "", 1)), Chunk([0])], Eof)
  {
    var meta := Meta(Metadata(BadId(partial), "", "", 1));
    BytesGrow([], meta);
    BytesGrow([meta], Chunk([0]));
    assert [] + [meta] == [meta] && [meta] + [Chunk([0])] == [meta, Chunk([0])];
  }

  // ---- The gateway ----

  datatype ReadEnd = More | AtEof | ReadFailed

  /** One read of the uploaded file: how many bytes it gave and whether there is more. */
  datatype Read = Read(n: nat, end: ReadEnd)

  /** Reads give at most a buffer each, and the end of file only after the whole file. */
  predicate ReadsOf(script: seq<Read>, left: nat)
    decreases |script|
  {
    && script != []
    && script[0].n <= CHUNK_SIZE
    && script[0].n <= left
    && match script[0].end
       case More => ReadsOf(script[1..], left - script[0].n)
       case AtEof => script[0].n == left
       case ReadFailed => true
  }

  /** No read fails before the end of the file. */
  predicate ReadsWhole(script: seq<Read>)
    decreases |script|
  {
    script != [] && (script[0].end == AtEof || (script[0].end == More && ReadsWhole(script[1..])))
  }

  /** How many chunks the reads make: one for each that gives something. */
  function Chunks(script: seq<Read>): nat
    decreases |script|
  {
    if script == [] then 0
    else (if script[0].n > 0 then 1 else 0) + (if script[0].end == More then Chunks(script[1..]) else 0)
  }

  /** What the reads still to come say about the next one. */
  lemma NextRead(script: seq<Read>, i: nat, left: nat)
    requires i < |script| && ReadsOf(script[i..], left)
    ensures script[i].n <= CHUNK_SIZE && script[i].n <= left
    ensures match script[i].end
            case More => i + 1 < |script| && ReadsOf(script[i + 1..], left - script[i].n)
                         && (ReadsWhole(script[i..]) <==> ReadsWhole(script[i + 1..]))
            case AtEof => script[i].n == left && ReadsWhole(script[i..])
            case ReadFailed => !ReadsWhole(script[i..])
    ensures Chunks(script[i..])
            == (if script[i].n > 0 then 1 else 0) + (if script[i].end == More then Chunks(script[i + 1..]) else 0)
  {
    assert script[i..][0] == script[i] && script[i..][1..] == script[i + 1..];
  }

  /** Fills the start of the shared buffer from the file. */
  method ReadInto(buffer: array<byte>, data: seq<byte>)
    requires |data| <= buffer.Length
    modifies buffer
    ensures buffer[..|data|] == data
  {
    for i := 0 to |data|
      invariant buffer[..i] == data[..i]
    {
      buffer[i] := data[i];
    }
  }

  /** Metadata, then chunks of at most a buffer, none of them empty. */
  predicate FromGateway(sent: seq<Message>, meta: Metadata) {
    && sent != [] && sent[0] == Meta(meta)
    && forall i :: 0 < i < |sent| ==> sent[i].Chunk? && 0 < |sent[i].data| <= CHUNK_SIZE
  }

  lemma OneMoreRead(file: seq<byte>, sent: seq<Message>, meta: Metadata, pos: nat, n: nat)
    requires FromGateway(sent, meta) && pos + n <= |file| && n <= CHUNK_SIZE && Bytes(sent) == file[..pos]
    ensures var data := file[pos..pos + n];
            var more := if n > 0 then sent + [Chunk(data)] else sent;
            FromGateway(more, meta) && Bytes(more) == file[..pos + n]
  {
    BytesGrow(sent, Chunk(file[pos..pos + n]));
    assert file[..pos] + file[pos..pos + n] == file[..pos + n];
  }

  /** One turn of the loop: a read into the shared buffer and, unless it gave nothing, a chunk. */
  method SendRead(buffer: array<byte>, file: seq<byte>, pos: nat, n: nat, sent: seq<Message>, ghost meta: Metadata)
    returns (more: seq<Message>)
    requires buffer.Length == CHUNK_SIZE
    requires FromGateway(sent, meta) && pos + n <= |file| && n <= CHUNK_SIZE && Bytes(sent) == file[..pos]
    modifies buffer
    ensures FromGateway(more, meta) && Bytes(more) == file[..pos + n]
    ensures |more| == |sent| + (if n > 0 then 1 else 0)
  {
    var data := file[pos..pos + n];
    ReadInto(buffer, data);
    OneMoreRead(file, sent, meta, pos, n);
    more := if n > 0 then sent + [Chunk(buffer[..n])] else sent;
  }

  /** The gateway's chunking loop, for any sizes of the reads: what it sends is the metadata
      followed by chunks that are together the file, or a prefix of this when a read fails or
      the stream takes no more than `capacity` messages. */
  method SendPhoto(file: seq<byte>, gallery: IdText, filename: string, contentType: string,
          script: seq<Read>, capacity: nat)
    returns (sent: seq<Message>, ending: Ending)
    requires ReadsOf(script, |file|)
    ensures |sent| <= capacity
    ensures sent == [] || FromGateway(sent, Metadata(gallery, filename, contentType, |file|))
    ensures Bytes(sent) <= file
    ensures ending == Eof ==> sent != [] && Bytes(sent) == file
    ensures ending == Eof <==> ReadsWhole(script) && 1 + Chunks(script) <= capacity
  {
    var meta := Metadata(gallery, filename, contentType, |file|);
    sent := [];
    if capacity == 0 {
      return sent, Broken;
    }
    sent := [Meta(meta)];
    var buffer := new byte[CHUNK_SIZE];
    var pos: nat := 0;
    BytesGrow([], sent[0]);
    for i := 0 to |script|
      invariant FromGateway(sent, meta)
      invariant pos <= |file| && Bytes(sent) == file[..pos]
      invariant |sent| <= capacity && |sent| + Chunks(script[i..]) == 1 + Chunks(script)
      invariant ReadsOf(script[i..], |file| - pos)
      invariant ReadsWhole(script[i..]) <==> ReadsWhole(script)
    {
      var n := script[i].n;
      NextRead(script, i, |file| - pos);
      if n > 0 && |sent| == capacity {
        return sent, Broken;
      }
      sent := SendRead(buffer, file, pos, n, sent, meta);
      pos := pos + n;
      match script[i].end {
        case AtEof => return sent, Eof;
        case ReadFailed => return sent, Broken;
        case More =>
      }
    }
    assert false;
  }

  /** The server takes what the gateway sends exactly when the file is neither empty nor
      over the cap, however it was cut. */
  lemma RoundTrip(file: seq<byte>, gallery: IdText, filename: string, contentType: string, sent: seq<Message>)
    requires gallery != NoId
    requires FromGateway(sent, Metadata(gallery, filename, contentType, |file|)) && Bytes(sent) == file
    ensures Acceptable(sent, Eof) <==> 0 < |file| <= MAX_PHOTO_BYTES
    ensures |file| > MAX_PHOTO_BYTES ==> Explains(sent, Eof, DeclaredTooLarge)
    ensures file == [] ==> Explains(sent, Eof, NoData)
  {
    if |file| > MAX_PHOTO_BYTES {
      assert sent[..0] == [] && InShape([]);
      assert Offends(sent[..0], sent[0], DeclaredTooLarge);
    }
  }
}

/** The upload service: a complete stream, a membership check through the circuit breaker,
    then the effects, in the service's order. */
module UploadService {
  import opened Breaker
  import BreakerRuns
  import opened Common
  import opened UploadRecords
  import opened UploadStream
  import Uploads

  // Milliseconds.
  const GALLERY_MAX_FAILURES := 3
  const GALLERY_RESET_TIMEOUT := 10000
  const GALLERY_CALL_TIMEOUT := 2000
  const GALLERY_BREAKER := Config(GALLERY_MAX_FAILURES, GALLERY_RESET_TIMEOUT)

  const DEFAULT_CONTENT_TYPE := "application/octet-stream"

  datatype GalleryStatus = Unspecified | Open | Closed

  datatype Membership = Membership(isMember: bool, status: GalleryStatus)

  datatype StoredObject = StoredObject(contentType: string, data: seq<byte>)

  datatype UploadEvent = UploadEvent(
    photo: UUID,
    gallery: UUID,
    uploader: UUID,
    storageKey: ObjectKey,
    url: string,
    contentType: string,
    sizeBytes: int,
    members: seq<UUID>)

  datatype Response = Response(photo: UUID, gallery: UUID, storageKey: ObjectKey, sizeBytes: int, url: string)

  /** What the rest of the system does during one upload: the gallery service's answers about
      memberships and members, the clock at the ends of the membership query and what other
      uploads do to the breaker in between, the next random identifier, where the object store
      puts the object, the public address of a key if one is configured, and whether the record
      is saved. */
  datatype World = World(
    membership: (UUID, UUID) -> Option<Membership>,
    members: UUID -> seq<UUID>,
    start: int,
    others: seq<Section>,
    finish: int,
    photo: UUID,
    stored: Option<string>,
    publicUrl: Option<string>,
    saves: bool,
    now: int)

  function ContentType(meta: Metadata): string {
    if meta.contentType == "" then DEFAULT_CONTENT_TYPE else meta.contentType
  }

  /** The membership answer lets the upload through. */
  predicate Welcome(answer: Option<Membership>) {
    answer.Some? && answer.value.isMember && answer.value.status != GalleryStatus.Closed
  }

  class Server {
    const breaker: CircuitBreaker
    const repo: Uploads.InMemoryRepository
    var objects: map<ObjectKey, StoredObject>
    var published: seq<UploadEvent>

    constructor (breaker: CircuitBreaker, repo: Uploads.InMemoryRepository)
      ensures this.breaker == breaker && this.repo == repo
      ensures objects == map[] && published == []
    {
      this.breaker, this.repo := breaker, repo;
      objects, published := map[], [];
    }

    /** Asks about one user and one gallery, through the breaker that all uploads share. */
    method IsMember(gallery: UUID, user: UUID, w: World) returns (r: Result<Membership, Code>)
      modifies breaker
      ensures var (b, admitted) := Admit(breaker.Settings(), old(breaker.Contents()), w.start);
              var answer := w.membership(gallery, user);
              if !admitted then r == Err(Unavailable) && breaker.Contents() == old(breaker.Contents())
              else && breaker.Contents() == Complete(breaker.Settings(), AfterSections(breaker.Settings(), b, w.others),
                                                     answer == None, w.finish)
                   && r == if answer == None then Err(Internal) else Ok(answer.value)
    {
      var answer := w.membership(gallery, user);
      var outcome := breaker.Call(w.start, w.others, w.finish, answer == None);
      match outcome {
        case Rejected => return Err(Unavailable);
        case Failed => return Err(Internal);
        case Succeeded => return Ok(answer.value);
      }
    }

    /** Everything an accepted upload leaves behind agrees on the photo, its gallery, its key,
        its type and its size, and a photo that is new is listed last in this gallery. */
    twostate predicate Stores(gallery: UUID, filename: string, contentType: string, data: seq<byte>,
            uploader: UUID, w: World, r: Response)
      reads this, repo
    {
      var key := ObjectKey(gallery, w.photo, filename);
      var kind := if contentType == "" then "application/octet-stream" else contentType;
      var rec := Record(w.photo, gallery, uploader, filename, kind, key, |data|, w.now);
      && w.stored.Some?
      && r == Response(w.photo, gallery, key, |data|, if w.publicUrl.Some? then w.publicUrl.value else w.stored.value)
      && objects == old(objects)[key := StoredObject(kind, data)]
      && published == old(published)
                      + [UploadEvent(w.photo, gallery, uploader, key, r.url, kind, |data|, w.members(gallery))]
      && repo.records == (if w.saves then old(repo.records)[w.photo := rec] else old(repo.records))
      && forall h :: repo.Listed(h) == old(repo.Listed(h))
                                       + (if w.saves && h == gallery && w.photo !in old(repo.records)
                                          then [w.photo] else [])
    }

    twostate predicate LeavesNothing()
      reads this, repo
    {
      && objects == old(objects)
      && published == old(published)
      && repo.records == old(repo.records)
      && forall h :: repo.Listed(h) == old(repo.Listed(h))
    }

    /** The effects are reached only by an acceptable stream whose uploader is confirmed as a
        member of a gallery that is not closed; any other upload leaves nothing behind. */
    method UploadPhoto(uploader: UUID, msgs: seq<Message>, ending: Ending, w: World) returns (r: Result<Response, Code>)
      requires repo.Valid()
      modifies this, breaker, repo
      ensures repo.Valid()
      ensures r.Ok? <==>
                && Acceptable(msgs, ending)
                && Admit(breaker.Settings(), old(breaker.Contents()), w.start).1
                && (var text := msgs[0].meta.gallery;
                    Welcome(w.membership(if text.IdOf? then text.id else text.partial, uploader)))
                && w.stored.Some?
      ensures r.Ok? ==>
                var meta := msgs[0].meta;
                Stores(if meta.gallery.IdOf? then meta.gallery.id else meta.gallery.partial,
                       meta.filename, meta.contentType, Bytes(msgs), uploader, w, r.value)
      ensures r.Err? ==> LeavesNothing()
      ensures r == Err(Unavailable) <==>
                Acceptable(msgs, ending) && !Admit(breaker.Settings(), old(breaker.Contents()), w.start).1
      ensures !Acceptable(msgs, ending) ==>
                && breaker.Contents() == old(breaker.Contents())
                && r == Err(if InShape(msgs) && ending == Broken then Internal else InvalidArgument)
      ensures var (b, admitted) := Admit(breaker.Settings(), old(breaker.Contents()), w.start);
              Acceptable(msgs, ending) && admitted ==>
                var text := msgs[0].meta.gallery;
                var answer := w.membership(if text.IdOf? then text.id else text.partial, uploader);
                && breaker.Contents() == Complete(breaker.Settings(), AfterSections(breaker.Settings(), b, w.others),
                                                  answer == None, w.finish)
                && (r == Err(InvalidArgument) <==> answer.Some? && !Welcome(answer))
                && (r == Err(Internal) <==> answer == None || (Welcome(answer) && w.stored == None))
    {
      var assembled, _ := Receive(msgs, ending);
      if assembled.Err? {
        CodeOfRefusal(msgs, ending, assembled.error);
        return Err(CodeOf(assembled.error));
      }
      var meta, data := assembled.value.meta, assembled.value.data;
      var gallery := GalleryOf(meta.gallery);
      var membership := IsMember(gallery, uploader, w);
      if membership.Err? {
        return Err(membership.error);
      }
      if !membership.value.isMember {
        return Err(InvalidArgument);
      }
      if membership.value.status == GalleryStatus.Closed {
        return Err(InvalidArgument);
      }
      if w.stored == None {
        return Err(Internal);
      }
      r := Store(gallery, meta.filename, ContentType(meta), data, uploader, w);
    }

    /** The effects, in order: object, record, event, response. */
    method Store(gallery: UUID, filename: string, contentType: string, data: seq<byte>, uploader: UUID, w: World)
      returns (r: Result<Response, Code>)
      requires repo.Valid() && w.stored.Some? && contentType != ""
      modifies this, repo
      ensures repo.Valid()
      ensures r.Ok? && Stores(gallery, filename, contentType, data, uploader, w, r.value)
    {
      var key := ObjectKey(gallery, w.photo, filename);
      objects := objects[key := StoredObject(contentType, data)];
      var url := if w.publicUrl.Some? then w.publicUrl.value else w.stored.value;
      if w.saves {
        repo.Save(Record(w.photo, gallery, uploader, filename, contentType, key, |data|, w.now));
      }
      published := published
                 + [UploadEvent(w.photo, gallery, uploader, key, url, contentType, |data|, w.members(gallery))];
      return Ok(Response(w.photo, gallery, key, |data|, url));
    }
  }

  /** From the browser's file to the stored object: with a welcome member and a working
      breaker, stream and store, every non-empty file up to the cap arrives byte for byte however
      it is read; an empty one, a larger one or one whose reading or sending fails leaves
      nothing. */
  method Upload(server: Server, file: seq<byte>, gallery: IdText, filename: string, contentType: string,
          script: seq<Read>, capacity: nat, uploader: UUID, w: World)
    returns (r: Result<Response, Code>)
    requires server.repo.Valid()
    requires ReadsOf(script, |file|) && gallery != NoId
    modifies server, server.breaker, server.repo
    ensures server.repo.Valid()
    ensures r.Ok? <==>
              && ReadsWhole(script)
              && 1 + Chunks(script) <= capacity
              && 0 < |file| <= 25 * 1024 * 1024
              && Admit(server.breaker.Settings(), old(server.breaker.Contents()), w.start).1
              && (var answer := w.membership(if gallery.IdOf? then gallery.id else gallery.partial, uploader);
                  answer.Some? && answer.value.isMember && answer.value.status != GalleryStatus.Closed)
              && w.stored.Some?
    ensures r.Ok? ==>
              server.Stores(if gallery.IdOf? then gallery.id else gallery.partial,
                            filename, contentType, file, uploader, w, r.value)
    ensures r.Err? ==> server.LeavesNothing()
  {
    var sent, ending := SendPhoto(file, gallery, filename, contentType, script, capacity);
    if ending == Eof {
      RoundTrip(file, gallery, filename, contentType, sent);
    }
    r := server.UploadPhoto(uploader, sent, ending, w);
  }

  method FirstPage(repo: Uploads.InMemoryRepository, gallery: UUID, pageSize: int) returns (page: seq<Uploads.Summary>)
    requires repo.Valid()
    ensures Uploads.ShowsAll(page, Window(Reversed(repo.Listed(gallery)), 0, Uploads.Limit(pageSize)), repo.records)
  {
    var r := Uploads.ListUploads(repo, IdOf(gallery), Uploads.NoToken, pageSize, true);
    page := r.value.uploads;
  }

  lemma ShownAlike(a: seq<Uploads.Summary>, b: seq<Uploads.Summary>, photos: seq<UUID>,
                   records: map<UUID, Record>, more: map<UUID, Record>)
    requires Uploads.ShowsAll(a, photos, records) && Uploads.ShowsAll(b, photos, more)
    requires forall photo <- records :: photo in more && more[photo] == records[photo]
    ensures a == b
  {
  }

  /** The first pages of a list before and after one more photo is listed last in it. */
  lemma NewestFirst(before: seq<Uploads.Summary>, after: seq<Uploads.Summary>, listed: seq<UUID>, photo: UUID,
                    limit: int, records: map<UUID, Record>, rec: Record)
    requires limit > 0 && photo !in records
    requires Uploads.ShowsAll(before, Window(Reversed(listed), 0, limit), records)
    requires Uploads.ShowsAll(after, Window(Reversed(listed + [photo]), 0, limit), records[photo := rec])
    ensures after != [] && Uploads.Shows(after[0], photo, rec)
    ensures after[1..] <= before && (|after| == |before| + 1 || |after| == limit)
  {
    var was, now := Window(Reversed(listed), 0, limit), Window(Reversed(listed + [photo]), 0, limit);
    assert now[0] == photo;
    forall i | 1 <= i < |after| ensures i <= |before| && after[i] == before[i - 1] {
      assert now[i] == was[i - 1];
    }
    assert after[1..] == before[..|after| - 1];
  }

  lemma ListingsAround(before: seq<Uploads.Summary>, after: seq<Uploads.Summary>, was: seq<UUID>, now: seq<UUID>,
                       photo: UUID, limit: int, records: map<UUID, Record>, more: map<UUID, Record>, added: bool)
    requires limit > 0 && photo !in records
    requires Uploads.ShowsAll(before, Window(Reversed(was), 0, limit), records)
    requires Uploads.ShowsAll(after, Window(Reversed(now), 0, limit), more)
    requires now == was + (if added then [photo] else [])
    requires more == records || (photo in more && more == records[photo := more[photo]])
    requires added ==> photo in more
    ensures added ==>
              && after != [] && Uploads.Shows(after[0], photo, more[photo])
              && after[1..] <= before && (|after| == |before| + 1 || |after| == limit)
    ensures !added ==> after == before
  {
    if added {
      NewestFirst(before, after, was, photo, limit, records, more[photo]);
    } else {
      assert now == was;
      ShownAlike(before, after, Window(Reversed(was), 0, limit), records, more);
    }
  }

  /** An upload and the listings around it. A new photo that was stored and saved comes first
      in the next listing of its gallery, followed by what the last one showed; no other
      gallery's listing changes, nor any when the upload failed. */
  method UploadBetweenListings(server: Server, file: seq<byte>, gallery: UUID, other: UUID, filename: string,
          contentType: string, script: seq<Read>, capacity: nat, uploader: UUID, w: World, pageSize: int)
    returns (r: Result<Response, Code>, before: seq<Uploads.Summary>, after: seq<Uploads.Summary>)
    requires server.repo.Valid()
    requires ReadsOf(script, |file|)
    requires w.photo !in server.repo.records
    modifies server, server.breaker, server.repo
    ensures r.Ok? ==> r.value.gallery == gallery
    ensures var answer := w.membership(gallery, uploader);
            r.Ok? ==> answer.Some? && answer.value.isMember && answer.value.status != GalleryStatus.Closed
    ensures r.Ok? && w.saves && other == gallery ==>
              && after != []
              && after[0] == Uploads.Summary(r.value.photo, gallery, uploader, r.value.storageKey, |file|, w.now)
              && after[1..] <= before
              && (|after| == |before| + 1 || |after| == Uploads.Limit(pageSize))
    ensures r.Err? || !w.saves || other != gallery ==> after == before
  {
    ghost var listed, records := server.repo.Listed(other), server.repo.records;
    before := FirstPage(server.repo, other, pageSize);
    r := Upload(server, file, IdOf(gallery), filename, contentType, script, capacity, uploader, w);
    after := FirstPage(server.repo, other, pageSize);
    ListingsAround(before, after, listed, server.repo.Listed(other), w.photo, Uploads.Limit(pageSize),
                   records, server.repo.records, r.Ok? && w.saves && other == gallery);
  }

  /** The service's own constants make its breaker's probes exclusive: calls are cut off
      after two seconds and the breaker waits for ten. */
  lemma GalleryProbesAreExclusive(t: int, es: seq<BreakerRuns.Event>)
    requires BreakerRuns.Legal(GALLERY_BREAKER, BreakerRuns.Start(t), es)
    requires BreakerRuns.AllPrompt(GALLERY_BREAKER, BreakerRuns.Start(t), es, GALLERY_CALL_TIMEOUT)
    ensures GALLERY_BREAKER == Config(3, 10000) && GALLERY_CALL_TIMEOUT == 2000
    ensures BreakerRuns.ProbeExclusive(BreakerRuns.Exec(GALLERY_BREAKER, BreakerRuns.Start(t), es))
  {
    BreakerRuns.PromptCallsMakeProbesExclusive(GALLERY_BREAKER, t, es, GALLERY_CALL_TIMEOUT);
  }
}
