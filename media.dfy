/** `EventMediaService`: the images and videos attached to an event. The image store
    is outside the model: what it answers for an upload travels with the file, and
    whether it manages to delete a file is a parameter. */
module Media {
  import opened Base
  import opened Entities
  import opened Db

  /** How many images a non-profile upload finds the event may already hold. */
  const IMAGE_CAP: nat := 5

  /** `1024L * 1024L * 1024L` bytes. */
  const VIDEO_LIMIT: nat := 1024 * 1024 * 1024

  /** A multipart file and what the image store answers when it is uploaded: the
      `secure_url` and `public_id`, or None when the upload throws. */
  datatype Part = Part(file: File, stored: Option<Uploaded>)

  /** `eventMediaRepository.save` of a new row. */
  function Save(db: Db, row: EventMedia): (o: Outcome<Id>)
    ensures o.result == Ok(db.nextMedia) && o.db.nextMedia == db.nextMedia + 1
    ensures o.db.media == db.media[db.nextMedia := row]
    ensures o.db == db.(media := o.db.media, nextMedia := o.db.nextMedia)
  {
    Outcome(db.(media := db.media[db.nextMedia := row], nextMedia := db.nextMedia + 1), Ok(db.nextMedia))
  }

  /** `uploadImage(e, file, profile)`. A non-profile image is refused once the event
      holds five images, its profile image included; a profile image is not capped
      and replaces the event's previous profile, which is first deleted from the
      store (`destroyed` says whether that works) and then from the table. Looking
      the previous profile up fails when the event has more than one. */
  function UploadImage(db: Db, e: Id, part: Part, profile: bool, destroyed: bool, now: Time): (o: Outcome<Id>)
    ensures o.result.Err? ==> o.db == db
    ensures o.result.Err? ==> o.result.failure == Raised(TooManyImages) || o.result.failure == Crashed
    ensures o.result.Ok? ==>
      && o.result.value == db.nextMedia && o.db.nextMedia == db.nextMedia + 1 && o.result.value in o.db.media
      && o.db.media[o.result.value].eventId == e && o.db.media[o.result.value].mediaType == Image
  {
    if !profile && |ImagesOf(db.media, e)| >= IMAGE_CAP then Fail(db, Raised(TooManyImages))
    else
      match part.stored
      case None => Fail(db, Crashed)
      case Some(up) =>
        var row := EventMedia(e, up.url, up.publicId, Image, profile, now);
        if !profile then Save(db, row)
        else
          var previous := ProfilesOf(db.media, e);
          if |previous| > 1 then Fail(db, Crashed)
          else if previous != {} && !destroyed then Fail(db, Crashed)
          else Save(db.(media := db.media - previous), row)
  }

  /** `uploadVideo(e, file)`: a file over one GiB is refused before it is uploaded. */
  function UploadVideo(db: Db, e: Id, part: Part, now: Time): (o: Outcome<Id>)
    ensures o.result.Err? ==> o.db == db
    ensures o.result.Err? ==> o.result.failure == Raised(VideoTooLarge) || o.result.failure == Crashed
    ensures o.result.Ok? ==>
      && o.result.value == db.nextMedia && o.db.nextMedia == db.nextMedia + 1 && o.result.value in o.db.media
      && o.db.media[o.result.value].eventId == e && o.db.media[o.result.value].mediaType == Video
  {
    if part.file.size > VIDEO_LIMIT then Fail(db, Raised(VideoTooLarge))
    else
      match part.stored
      case None => Fail(db, Crashed)
      case Some(up) => Save(db, EventMedia(e, up.url, up.publicId, Video, false, now))
  }

  /** `deleteMedia(id)`: the file is deleted from the store, then the row. */
  function DeleteMedia(db: Db, id: Id, destroyed: bool): (o: Outcome<()>)
    ensures o.result.Err? ==> o.db == db
    ensures o.result.Ok? ==> id in db.media && o.db.media.Keys == db.media.Keys - {id}
  {
    if id !in db.media then Fail(db, Raised(MediaNotFound))
    else if !destroyed then Fail(db, Crashed)
    else Outcome(db.(media := db.media - {id}), Ok(()))
  }

  // ---------------------------------------------------------------------------
  // Images

  /** The cap applies to non-profile images only, and a refused or failed upload
      changes nothing. */
  lemma UploadImageRefusals(db: Db, e: Id, part: Part, profile: bool, destroyed: bool, now: Time)
    ensures var o := UploadImage(db, e, part, profile, destroyed, now);
      o.result == Err(Raised(TooManyImages)) <==> !profile && |ImagesOf(db.media, e)| >= 5
    ensures var o := UploadImage(db, e, part, profile, destroyed, now);
      o.result.Err? ==> o.db == db
    ensures var o := UploadImage(db, e, part, profile, destroyed, now);
      o.result.Ok? <==> part.stored.Some? && (if profile then |ProfilesOf(db.media, e)| == 0 || (|ProfilesOf(db.media, e)| == 1 && destroyed) else |ImagesOf(db.media, e)| < 5)
  {
  }

  /** The profile image counts towards the cap: with a profile and four other
      images an event takes no further non-profile image, but still takes a new profile. */
  lemma ProfileCountsTowardCap(db: Db, e: Id, part: Part, now: Time)
    requires MediaRules(db.media) && |ProfilesOf(db.media, e)| == 1 && |GalleryOf(db.media, e)| == 4
    requires part.stored.Some?
    ensures UploadImage(db, e, part, false, true, now) == Fail(db, Raised(TooManyImages))
    ensures UploadImage(db, e, part, true, true, now).result.Ok?
  {
    ImagesSplit(db, e);
  }

  /** A saved image is an IMAGE of event `e` with the requested profile flag and the
      store's url; a profile image takes the place of the previous profile, and no
      other row changes. */
  lemma UploadImageSaves(db: Db, e: Id, part: Part, profile: bool, destroyed: bool, now: Time)
    requires Counters(db)
    ensures var o := UploadImage(db, e, part, profile, destroyed, now);
      o.result.Ok? ==>
        var id := o.result.value;
        && id == db.nextMedia && id !in db.media
        && o.db.media[id] == EventMedia(e, part.stored.value.url, part.stored.value.publicId, Image, profile, now)
        && o.db.media == (if profile then db.media - ProfilesOf(db.media, e) else db.media)[id := o.db.media[id]]
        && o.db == db.(media := o.db.media, nextMedia := db.nextMedia + 1)
  {
  }

  /** After a profile upload the event's one profile is the new row. */
  lemma ProfileReplaced(db: Db, e: Id, part: Part, destroyed: bool, now: Time)
    requires Counters(db)
    ensures var o := UploadImage(db, e, part, true, destroyed, now);
      o.result.Ok? ==> ProfilesOf(o.db.media, e) == {o.result.value}
  {
    var o := UploadImage(db, e, part, true, destroyed, now);
    if o.result.Ok? {
      var rest := db.media - ProfilesOf(db.media, e);
      assert ProfilesOf(rest, e) == {};
      ProfilesInsert(rest, db.nextMedia, o.db.media[db.nextMedia], e);
    }
  }

  /** `ProfilesOf` after adding one row. */
  lemma ProfilesInsert(media: map<Id, EventMedia>, id: Id, row: EventMedia, e: Id)
    requires id !in media
    ensures ProfilesOf(media[id := row], e) == ProfilesOf(media, e) + (if row.eventId == e && row.profile then {id} else {})
  {
  }

  /** `GalleryOf` after adding one row. */
  lemma GalleryInsert(media: map<Id, EventMedia>, id: Id, row: EventMedia, e: Id)
    requires id !in media
    ensures GalleryOf(media[id := row], e)
            == GalleryOf(media, e) + (if row.eventId == e && row.mediaType == Image && !row.profile then {id} else {})
  {
  }

  /** Removing rows never enlarges a gallery or a profile set. */
  lemma RemoveShrinks(media: map<Id, EventMedia>, gone: set<Id>, e: Id)
    ensures GalleryOf(media - gone, e) <= GalleryOf(media, e)
    ensures ProfilesOf(media - gone, e) <= ProfilesOf(media, e)
  {
  }

  lemma SubsetCard(a: set<Id>, b: set<Id>)
    requires a <= b
    ensures |a| <= |b|
  {
    assert b == a + (b - a);
  }

  /** Uploading an image keeps the media rules: at most one profile image and five
      others per event. */
  lemma UploadImageKeepsRules(db: Db, e: Id, part: Part, profile: bool, destroyed: bool, now: Time)
    requires Counters(db) && MediaRules(db.media)
    ensures MediaRules(UploadImage(db, e, part, profile, destroyed, now).db.media)
  {
    var o := UploadImage(db, e, part, profile, destroyed, now);
    if o.result.Ok? {
      var base := if profile then db.media - ProfilesOf(db.media, e) else db.media;
      assert o.db.media == base[db.nextMedia := o.db.media[db.nextMedia]];
      forall x
        ensures |ProfilesOf(o.db.media, x)| <= 1 && |GalleryOf(o.db.media, x)| <= 5
      {
        ImageRowKeepsRules(db, e, profile, base, o.db.media[db.nextMedia], x);
      }
    }
  }

  /** One event's counts after `base` (the table, less the replaced profile) gains `row`. */
  lemma ImageRowKeepsRules(db: Db, e: Id, profile: bool, base: map<Id, EventMedia>, row: EventMedia, x: Id)
    requires Counters(db) && MediaRules(db.media)
    requires base == if profile then db.media - ProfilesOf(db.media, e) else db.media
    requires row.eventId == e && row.mediaType == Image && row.profile == profile
    requires !profile ==> |ImagesOf(db.media, e)| < 5
    ensures |ProfilesOf(base[db.nextMedia := row], x)| <= 1 && |GalleryOf(base[db.nextMedia := row], x)| <= 5
  {
    ProfilesInsert(base, db.nextMedia, row, x);
    GalleryInsert(base, db.nextMedia, row, x);
    RemoveShrinks(db.media, ProfilesOf(db.media, e), x);
    SubsetCard(GalleryOf(base, x), GalleryOf(db.media, x));
    SubsetCard(ProfilesOf(base, x), ProfilesOf(db.media, x));
    if x == e && profile {
      assert ProfilesOf(base, x) == {};
    }
    if x == e && !profile {
      ImagesSplit(db, e);
    }
  }

  // ---------------------------------------------------------------------------
  // Videos

  /** The limit is inclusive: one GiB is uploaded, one byte more is refused. */
  lemma VideoLimitInclusive(db: Db, e: Id, up: Uploaded, now: Time)
    ensures UploadVideo(db, e, Part(File(1073741824), Some(up)), now).result.Ok?
    ensures UploadVideo(db, e, Part(File(1073741825), Some(up)), now) == Fail(db, Raised(VideoTooLarge))
  {
  }

  /** A saved video is a VIDEO of event `e`, never a profile; videos are not capped. */
  lemma UploadVideoSaves(db: Db, e: Id, part: Part, now: Time)
    requires Counters(db)
    ensures var o := UploadVideo(db, e, part, now);
      o.result.Ok? <==> part.file.size <= VIDEO_LIMIT && part.stored.Some?
    ensures var o := UploadVideo(db, e, part, now);
      o.result.Ok? ==>
        && o.result.value == db.nextMedia && db.nextMedia !in db.media
        && o.db.media == db.media[db.nextMedia := EventMedia(e, part.stored.value.url, part.stored.value.publicId, Video, false, now)]
    ensures var o := UploadVideo(db, e, part, now);
      o.result.Err? ==> o.db == db
  {
  }

  lemma UploadVideoKeepsRules(db: Db, e: Id, part: Part, now: Time)
    requires Counters(db) && MediaRules(db.media)
    ensures MediaRules(UploadVideo(db, e, part, now).db.media)
  {
    var o := UploadVideo(db, e, part, now);
    if o.result.Ok? {
      var row := o.db.media[db.nextMedia];
      assert o.db.media == db.media[db.nextMedia := row] && row.mediaType == Video && !row.profile;
      forall x
        ensures |ProfilesOf(o.db.media, x)| <= 1 && |GalleryOf(o.db.media, x)| <= 5
      {
        ProfilesInsert(db.media, db.nextMedia, row, x);
        GalleryInsert(db.media, db.nextMedia, row, x);
      }
    }
  }

  // ---------------------------------------------------------------------------
  // Deleting and listing

  /** An unknown id is NOT_FOUND; otherwise exactly that row goes, once the store
      has deleted the file. */
  lemma DeleteMediaOutcomes(db: Db, id: Id, destroyed: bool)
    ensures var o := DeleteMedia(db, id, destroyed);
      (o.result == Err(Raised(MediaNotFound)) <==> id !in db.media)
      && (o.result.Ok? <==> id in db.media && destroyed)
      && (o.result.Ok? ==> o.db == db.(media := db.media - {id}) && o.db.media.Keys == db.media.Keys - {id})
      && (o.result.Err? ==> o.db == db)
  {
  }

  lemma DeleteMediaKeepsRules(db: Db, id: Id, destroyed: bool)
    requires MediaRules(db.media)
    ensures MediaRules(DeleteMedia(db, id, destroyed).db.media)
  {
    var o := DeleteMedia(db, id, destroyed);
    if o.result.Ok? {
      forall x
        ensures |ProfilesOf(o.db.media, x)| <= 1 && |GalleryOf(o.db.media, x)| <= 5
      {
        RemoveShrinks(db.media, {id}, x);
        SubsetCard(GalleryOf(o.db.media, x), GalleryOf(db.media, x));
        SubsetCard(ProfilesOf(o.db.media, x), ProfilesOf(db.media, x));
      }
    }
  }

  /** The media service keeps every schema rule: it touches no other table, and
      new rows take identities from the `event_media` sequence. */
  lemma UploadImageKeepsValid(db: Db, e: Id, part: Part, profile: bool, destroyed: bool, now: Time)
    requires Valid(db)
    ensures Valid(UploadImage(db, e, part, profile, destroyed, now).db)
  {
    var o := UploadImage(db, e, part, profile, destroyed, now);
    if o.result.Ok? {
      MediaTableKeepsValid(db, o.db.media, o.db.nextMedia);
    }
  }

  lemma UploadVideoKeepsValid(db: Db, e: Id, part: Part, now: Time)
    requires Valid(db)
    ensures Valid(UploadVideo(db, e, part, now).db)
  {
    var o := UploadVideo(db, e, part, now);
    if o.result.Ok? {
      MediaTableKeepsValid(db, o.db.media, o.db.nextMedia);
    }
  }

  lemma DeleteMediaKeepsValid(db: Db, id: Id, destroyed: bool)
    requires Valid(db)
    ensures Valid(DeleteMedia(db, id, destroyed).db)
  {
    var o := DeleteMedia(db, id, destroyed);
    if o.result.Ok? {
      MediaTableKeepsValid(db, o.db.media, o.db.nextMedia);
    }
  }

  lemma MediaTableKeepsValid(db: Db, media: map<Id, EventMedia>, next: Id)
    requires Valid(db) && IdsBelow(media, next) && 1 <= next
    ensures Valid(db.(media := media, nextMedia := next))
  {
  }

  /** `getMediaForEvent(e)` (`MediaRows`) lists exactly the rows whose `eventId` is `e`. */
  lemma MediaForEventExact(db: Db, e: Id, id: Id)
    requires Counters(db)
    ensures (exists i :: 0 <= i < |MediaRows(db, e)| && MediaRows(db, e)[i].0 == id)
            <==> id in db.media && db.media[id].eventId == e
  {
    if id in db.media && db.media[id].eventId == e {
      var rows := MediaRows(db, e);
      assert (id, db.media[id]) in rows;
      var i :| 0 <= i < |rows| && rows[i] == (id, db.media[id]);
      assert rows[i].0 == id;
    }
  }
}
