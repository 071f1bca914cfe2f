/** How a profile's avatar is stored and served (internal/graph/resolver/convert.go), and the write
    path it is part of (UpdateProfile in internal/graph/resolver/schema.resolvers.go). */
module Avatars {
  import opened Basics
  import opened ProfileRow
  import opened ProfileStore
  import ChannelName
  import opened FileLinks
  import Uploads = UploadCommit
  import Coherence = ProfileCoherence

  type UploadRows = map<string, Uploads.Row>

  /** The file service the resolvers have, if they have one: where files live and who may read them. */
  datatype Files = Files(base: string, isPublic: bool)

  // ---------- storing ----------

  /** What storedAvatar makes of the link a client sent. */
  datatype Stored = Store(link: Option<string>) | NotYours | LookupFailed

  function StoredAvatar(files: Option<Files>, uploads: UploadRows, profileID: int, link: Option<string>,
                        lookupWorks: bool): Stored {
    if link.None? || files.None? then Store(link)
    else
      var key := KeyFromLink(files.value.base, link.value);
      if key.None? then Store(link)
      else if !lookupWorks then LookupFailed
      else if !Uploads.Owns(uploads, key.value, profileID) then NotYours
      else Store(Some(PermanentLink(files.value.base, key.value)))
  }

  // ---------- serving ----------

  /** avatarLink; a failing lookup or signature hides the avatar. */
  function AvatarLink(files: Option<Files>, uploads: UploadRows, profileID: int, stored: Option<string>,
                      lookupWorks: bool, signature: Option<string>): Option<string> {
    if stored.None? || files.None? then stored
    else
      var key := KeyFromLink(files.value.base, stored.value);
      if key.None? then stored
      else if !lookupWorks || !Uploads.Owns(uploads, key.value, profileID) then None
      else LinkFor(files.value.base, files.value.isPublic, key.value, signature)
  }

  // ---------- what the two promise together ----------

  /** An avatar in the form the database keeps: none, somebody else's address, or the permanent link of
      a file the profile owns. */
  ghost predicate InStoredForm(base: string, uploads: UploadRows, profileID: int, avatar: Option<string>) {
    avatar.None? || KeyFromLink(base, avatar.value).None? || OwnFile(base, uploads, profileID, avatar.value)
  }

  ghost predicate OwnFile(base: string, uploads: UploadRows, profileID: int, link: string) {
    exists key :: PlainKey(key) && link == PermanentLink(base, key) && Uploads.Owns(uploads, key, profileID)
  }

  /** Storing puts a link into the stored form; a link of ours keeps its key and loses its signature,
      and any other link is kept as it is. */
  lemma StoringNormalises(f: Files, uploads: UploadRows, profileID: int, link: string, lookupWorks: bool)
    ensures var r, key := StoredAvatar(Some(f), uploads, profileID, Some(link), lookupWorks), KeyFromLink(f.base, link);
            && (r.Store? ==> InStoredForm(f.base, uploads, profileID, r.link))
            && (key.None? ==> r == Store(Some(link)))
            && (r.Store? && key.Some? ==> r.link.Some? && KeyFromLink(f.base, r.link.value) == key)
  {
    var key := KeyFromLink(f.base, link);
    if key.Some? {
      KeyFromLinkExactly(f.base, link, key.value);
      KeyFromLinkExactly(f.base, PermanentLink(f.base, key.value), key.value);
    }
  }

  /** A link of ours: that of a plain key, with or without a query. */
  ghost predicate NamesOurs(files: Option<Files>, link: Option<string>, key: string) {
    files.Some? && link.Some? && PlainKey(key) && Addresses(files.value.base, link.value, key)
  }

  ghost predicate OwnedIn(uploads: UploadRows, key: string, profileID: int) {
    key in uploads && uploads[key].uploaderProfileID == Some(profileID)
  }

  lemma KeyIsTheNamedOne(f: Files, link: string)
    ensures forall key :: NamesOurs(Some(f), Some(link), key) <==> KeyFromLink(f.base, link) == Some(key)
  {
    forall key ensures NamesOurs(Some(f), Some(link), key) <==> KeyFromLink(f.base, link) == Some(key) {
      KeyFromLinkExactly(f.base, link, key);
    }
  }

  /** A link of ours is stored as its key's permanent link if the profile owns the file, and else refused,
      or not decided while the lookup fails; any other link, and any link when there are no files, is
      stored as it is, whatever the lookup does. */
  lemma StoringExactly(files: Option<Files>, uploads: UploadRows, profileID: int, link: Option<string>,
                       lookupWorks: bool)
    ensures var r := StoredAvatar(files, uploads, profileID, link, lookupWorks);
            && (forall key :: NamesOurs(files, link, key) ==>
                  r == if !lookupWorks then LookupFailed
                       else if OwnedIn(uploads, key, profileID) then Store(Some(files.value.base + "/" + key))
                       else NotYours)
            && ((forall key :: !NamesOurs(files, link, key)) ==> r == Store(link))
  {
    if files.Some? && link.Some? {
      KeyIsTheNamedOne(files.value, link.value);
      if KeyFromLink(files.value.base, link.value).Some? {
        assert NamesOurs(files, link, KeyFromLink(files.value.base, link.value).value);
      }
    }
  }

  /** A stored link of ours is served, bare in public mode and signed in private mode, if the lookup works,
      the profile owns the file, and a signature that is needed can be made; else it is hidden. Any other
      stored link is served as it is. */
  lemma ServingExactly(files: Option<Files>, uploads: UploadRows, profileID: int, stored: Option<string>,
                       lookupWorks: bool, signature: Option<string>)
    ensures var served := AvatarLink(files, uploads, profileID, stored, lookupWorks, signature);
            && (forall key :: NamesOurs(files, stored, key) ==>
                  served == if !lookupWorks || !OwnedIn(uploads, key, profileID) then None
                            else if files.value.isPublic then Some(files.value.base + "/" + key)
                            else if signature.None? then None
                            else Some(files.value.base + "/" + key + "?" + signature.value))
            && ((forall key :: !NamesOurs(files, stored, key)) ==> served == stored)
  {
    if files.Some? && stored.Some? {
      KeyIsTheNamedOne(files.value, stored.value);
      if KeyFromLink(files.value.base, stored.value).Some? {
        assert NamesOurs(files, stored, KeyFromLink(files.value.base, stored.value).value);
      }
    }
  }

  /** Storing what was stored changes nothing. */
  lemma StoringIsIdempotent(files: Option<Files>, uploads: UploadRows, profileID: int, link: Option<string>)
    ensures var once := StoredAvatar(files, uploads, profileID, link, true);
            once.Store? ==> StoredAvatar(files, uploads, profileID, once.link, true) == once
  {
    if files.Some? && link.Some? {
      StoringNormalises(files.value, uploads, profileID, link.value, true);
    }
  }

  /** Whatever is in the database, a link served for one of our files is for a file the profile owns. */
  lemma OnlyOwnFilesAreServed(f: Files, uploads: UploadRows, profileID: int, stored: Option<string>,
                              lookupWorks: bool, signature: Option<string>, key: string)
    requires var served := AvatarLink(Some(f), uploads, profileID, stored, lookupWorks, signature);
             served.Some? && KeyFromLink(f.base, served.value) == Some(key)
    ensures Uploads.Owns(uploads, key, profileID)
    ensures stored.Some? && KeyFromLink(f.base, stored.value) == Some(key)
  {
    var mine := KeyFromLink(f.base, stored.value);
    KeyFromLinkExactly(f.base, stored.value, mine.value);
    KeyComesBackFromItsLink(f.base, f.isPublic, mine.value, signature);
  }

  /** A stored own file is served as a link for that same key whenever lookup and signing work. */
  lemma OwnFileIsServed(f: Files, uploads: UploadRows, profileID: int, stored: string, signature: string)
    requires OwnFile(f.base, uploads, profileID, stored)
    ensures var served := AvatarLink(Some(f), uploads, profileID, Some(stored), true, Some(signature));
            && KeyFromLink(f.base, stored).Some? && served.Some?
            && KeyFromLink(f.base, served.value) == KeyFromLink(f.base, stored)
            && served == LinkFor(f.base, f.isPublic, KeyFromLink(f.base, stored).value, Some(signature))
  {
    var key :| PlainKey(key) && stored == PermanentLink(f.base, key) && Uploads.Owns(uploads, key, profileID);
    KeyFromLinkExactly(f.base, stored, key);
    KeyComesBackFromItsLink(f.base, f.isPublic, key, Some(signature));
  }

  // ---------- the write path ----------

  const DISPLAY_NAME_MAX := 100
  const BIO_MAX := 1000
  const AVATAR_URL_MAX := 2048

  datatype Input = Input(avatarUrl: Option<string>, displayName: Option<string>, bio: Option<string>)

  predicate AtMost(field: Option<string>, max: nat) {
    field.Some? ==> |field.value| <= max
  }

  /** validateProfileUpdate; `absoluteHttp` is what url.Parse says of the avatar. */
  predicate Acceptable(input: Input, absoluteHttp: bool) {
    && AtMost(input.displayName, DISPLAY_NAME_MAX)
    && AtMost(input.bio, BIO_MAX)
    && AtMost(input.avatarUrl, AVATAR_URL_MAX)
    && (input.avatarUrl.Some? && !IsBlank(input.avatarUrl.value) ==> absoluteHttp)
  }

  datatype UpdateResult = Unauthenticated | BadInput | OwnershipUnknown | UpdateFailed | Updated(row: Profile)

  /** A message handed to Redis. */
  datatype Message = Message(channel: string, payload: Profile)

  /** What UpdateProfile decides before it touches the table. */
  datatype Checked = Reject(result: UpdateResult) | Proceed(params: UpdateParams)

  function Check(files: Option<Files>, uploads: UploadRows, user: Option<Profile>, input: Input,
                 absoluteHttp: bool, lookupWorks: bool): Checked {
    if user.None? then Reject(Unauthenticated)
    else if !Acceptable(input, absoluteHttp) then Reject(BadInput)
    else match StoredAvatar(files, uploads, user.value.id, input.avatarUrl, lookupWorks)
      case NotYours => Reject(BadInput)
      case LookupFailed => Reject(OwnershipUnknown)
      case Store(avatar) => Proceed(UpdateParams(avatar, input.displayName, input.bio))
  }

  /** An input refused for its form: a display name over 100 characters, a bio over 1000, an avatar over
      2048, or an avatar that is not blank and no absolute http or https URL. */
  ghost predicate Malformed(input: Input, absoluteHttp: bool) {
    || (input.displayName.Some? && |input.displayName.value| > 100)
    || (input.bio.Some? && |input.bio.value| > 1000)
    || (input.avatarUrl.Some? && |input.avatarUrl.value| > 2048)
    || (input.avatarUrl.Some? && !absoluteHttp
        && exists c :: c in input.avatarUrl.value && !(9 <= c as int <= 13) && c != ' ')
  }

  lemma AcceptableExactly(input: Input, absoluteHttp: bool)
    ensures Acceptable(input, absoluteHttp) <==> !Malformed(input, absoluteHttp)
  {
    if input.avatarUrl.Some? {
      var text := input.avatarUrl.value;
      AssignedFollows(None, input.avatarUrl);
      assert IsBlank(text) <==> Assigned(None, input.avatarUrl).None?;
    }
  }

  /** What is refused, and for which reason, and what of the rest goes on to the table. */
  lemma CheckExactly(files: Option<Files>, uploads: UploadRows, user: Option<Profile>, input: Input,
                     absoluteHttp: bool, lookupWorks: bool)
    ensures var c := Check(files, uploads, user, input, absoluteHttp, lookupWorks);
            && (user.None? ==> c == Reject(Unauthenticated))
            && (user.Some? && Malformed(input, absoluteHttp) ==> c == Reject(BadInput))
            && (user.Some? && !Malformed(input, absoluteHttp) ==>
                  && (forall key :: NamesOurs(files, input.avatarUrl, key) ==>
                        c == if !lookupWorks then Reject(OwnershipUnknown)
                             else if !OwnedIn(uploads, key, user.value.id) then Reject(BadInput)
                             else Proceed(UpdateParams(avatarUrl := Some(files.value.base + "/" + key),
                                                       displayName := input.displayName, bio := input.bio)))
                  && ((forall key :: !NamesOurs(files, input.avatarUrl, key)) ==>
                        c == Proceed(UpdateParams(avatarUrl := input.avatarUrl,
                                                  displayName := input.displayName, bio := input.bio))))
  {
    AcceptableExactly(input, absoluteHttp);
    if user.Some? {
      StoringExactly(files, uploads, user.value.id, input.avatarUrl, lookupWorks);
    }
  }

  /** What the avatar column holds once `sent` has been accepted for it. */
  ghost predicate AvatarFollows(files: Option<Files>, now: Option<string>, was: Option<string>, sent: Option<string>) {
    && (forall key :: NamesOurs(files, sent, key) ==> now == Some(files.value.base + "/" + key))
    && ((forall key :: !NamesOurs(files, sent, key)) ==> Follows(now, was, sent))
  }

  /** A permanent link is not blank. */
  lemma LinksAreStored(now: Option<string>, was: Option<string>, base: string, key: string)
    requires Follows(now, was, Some(base + "/" + key))
    ensures now == Some(base + "/" + key)
  {
    assert (base + "/" + key)[|base|] == '/';
    assert '/' in base + "/" + key;
  }

  lemma AcceptedAvatarFollows(files: Option<Files>, uploads: UploadRows, user: Option<Profile>, input: Input,
                              absoluteHttp: bool, lookupWorks: bool, now: Option<string>, was: Option<string>)
    requires var c := Check(files, uploads, user, input, absoluteHttp, lookupWorks);
             c.Proceed? && Follows(now, was, c.params.avatarUrl)
    ensures AvatarFollows(files, now, was, input.avatarUrl)
  {
    CheckExactly(files, uploads, user, input, absoluteHttp, lookupWorks);
    forall key | NamesOurs(files, input.avatarUrl, key) ensures now == Some(files.value.base + "/" + key) {
      LinksAreStored(now, was, files.value.base, key);
    }
  }

  class Resolver {
    const files: Option<Files>
    const profiles: Service
    const uploads: UploadRows
    var sent: seq<Message>

    constructor (files: Option<Files>, profiles: Service, uploads: UploadRows)
      ensures this.files == files && this.profiles == profiles && this.uploads == uploads && sent == []
    {
      this.files, this.profiles, this.uploads, sent := files, profiles, uploads, [];
    }

    /** UpdateProfile: a rejected input touches nothing; an update that fails is not published; one that
        succeeds is published on its profile's own channel, as the row that was written. */
    method UpdateProfile(user: Option<Profile>, input: Input, absoluteHttp: bool, lookupWorks: bool,
                         publishWorks: bool, ios: Ios) returns (r: UpdateResult)
      requires profiles.Valid()
      modifies profiles, this`sent
      ensures profiles.Valid()
      ensures var checked := Check(files, uploads, user, input, absoluteHttp, lookupWorks);
              if checked.Reject? then
                r == checked.result && profiles.Abstract() == old(profiles.Abstract()) && sent == old(sent)
              else
                var (w, answer) := Finish(old(profiles.Abstract()),
                                          Started(Kind.Update(user.value.id, checked.params), user.value.oidcSub), ios);
                && profiles.Abstract() == w
                && r == (if answer.Got? then Updated(answer.p) else UpdateFailed)
                && (answer.Got? ==> answer.p.id in w.db.rows && w.db.rows[answer.p.id] == answer.p)
                && sent == old(sent) + if answer.Got? && publishWorks
                                       then [Message(ChannelName.ChannelFor(answer.p.id), answer.p)] else []
      ensures r.Unauthenticated? <==> user.None?
      ensures r.BadInput? <==>
                && user.Some?
                && (|| Malformed(input, absoluteHttp)
                    || (lookupWorks && exists key ::
                          NamesOurs(files, input.avatarUrl, key) && !OwnedIn(uploads, key, user.value.id)))
      ensures r.OwnershipUnknown? <==>
                && user.Some? && !Malformed(input, absoluteHttp) && !lookupWorks
                && exists key :: NamesOurs(files, input.avatarUrl, key)
      ensures !r.Updated? ==> sent == old(sent)
      ensures r.Updated? ==>
                && user.value.id in old(profiles.rows)
                && profiles.rows == old(profiles.rows)[user.value.id := r.row]
                && var was := old(profiles.rows)[user.value.id];
                && Follows(r.row.displayName, was.displayName, input.displayName)
                && Follows(r.row.bio, was.bio, input.bio)
                && AvatarFollows(files, r.row.avatarUrl, was.avatarUrl, input.avatarUrl)
                && (r.row.id, r.row.createdAt, r.row.oidcSub, r.row.roles)
                   == (was.id, was.createdAt, was.oidcSub, was.roles)
                && r.row.updatedAt == ios.update.at
    {
      CheckExactly(files, uploads, user, input, absoluteHttp, lookupWorks);
      if user.None? {
        return Unauthenticated;
      }
      if !Acceptable(input, absoluteHttp) {
        return BadInput;
      }
      var avatar := input.avatarUrl;
      if avatar.Some? && files.Some? {
        var key := KeyFromLink(files.value.base, avatar.value);
        if key.Some? {
          if !lookupWorks {
            return OwnershipUnknown;
          }
          if !Uploads.Owns(uploads, key.value, user.value.id) {
            return BadInput;
          }
          avatar := Some(PermanentLink(files.value.base, key.value));
        }
      }
      var params := UpdateParams(avatar, input.displayName, input.bio);
      Coherence.UpdateGivesItsRow(profiles.Abstract(), user.value.id, user.value.oidcSub, params, ios);
      ghost var before := profiles.rows;
      var answer := profiles.Update(user.value.id, user.value.oidcSub, params, ios);
      if !answer.Got? {
        return UpdateFailed;
      }
      AcceptedAvatarFollows(files, uploads, user, input, absoluteHttp, lookupWorks,
                            answer.p.avatarUrl, before[user.value.id].avatarUrl);
      if publishWorks {
        sent := sent + [Message(ChannelName.ChannelFor(answer.p.id), answer.p)];
      }
      r := Updated(answer.p);
    }
  }

  // ---------- runs of updates ----------

  /** The tables a run of sign-ins, uploads and profile updates works on. */
  datatype Tables = Tables(db: Db, uploads: UploadRows)

  datatype Event =
    | SignIn(sub: string, now: int)
    | Upload(row: Uploads.Row)
    | UpdateBy(user: Profile, input: Input, absoluteHttp: bool, lookupWorks: bool, now: int)

  ghost function Do(f: Files, t: Tables, e: Event): Tables {
    match e
    case SignIn(sub, now) => t.(db := Upsert(t.db, sub, now).0)
    case Upload(row) => if row.filepath in t.uploads then t else t.(uploads := t.uploads[row.filepath := row])
    case UpdateBy(user, input, absoluteHttp, lookupWorks, now) =>
      var checked := Check(Some(f), t.uploads, Some(user), input, absoluteHttp, lookupWorks);
      if checked.Reject? || user.id !in t.db.rows then t
      else t.(db := t.db.(rows := t.db.rows[user.id := UpdatedRow(t.db.rows[user.id], checked.params, now)]))
  }

  ghost function Run(f: Files, events: seq<Event>): Tables {
    if events == [] then Tables(Db(map[], 1), map[])
    else Do(f, Run(f, events[..|events| - 1]), events[|events| - 1])
  }

  ghost predicate AvatarsInStoredForm(f: Files, t: Tables) {
    && WellKeyed(t.db)
    && forall id :: id in t.db.rows ==> InStoredForm(f.base, t.uploads, id, t.db.rows[id].avatarUrl)
  }

  lemma EventKeepsStoredForm(f: Files, t: Tables, e: Event)
    requires AvatarsInStoredForm(f, t)
    ensures AvatarsInStoredForm(f, Do(f, t, e))
  {
    match e
    case SignIn(sub, now) => UpsertKeepsKeys(t.db, sub, now);
    case Upload(row) =>
      var uploads' := Do(f, t, e).uploads;
      forall id, link | OwnFile(f.base, t.uploads, id, link) ensures OwnFile(f.base, uploads', id, link) {
        var key :| PlainKey(key) && link == PermanentLink(f.base, key) && Uploads.Owns(t.uploads, key, id);
        assert Uploads.Owns(uploads', key, id);
      }
    case UpdateBy(user, input, absoluteHttp, lookupWorks, now) =>
      var checked := Check(Some(f), t.uploads, Some(user), input, absoluteHttp, lookupWorks);
      if checked.Proceed? && user.id in t.db.rows {
        Coherence.UpdateKeepsKeys(t.db, user.id, checked.params, now);
        if input.avatarUrl.Some? {
          StoringNormalises(f, t.uploads, user.id, input.avatarUrl.value, lookupWorks);
        }
      }
  }

  lemma {:induction false} RunsKeepStoredForm(f: Files, events: seq<Event>)
    ensures AvatarsInStoredForm(f, Run(f, events))
  {
    if events != [] {
      RunsKeepStoredForm(f, events[..|events| - 1]);
      EventKeepsStoredForm(f, Run(f, events[..|events| - 1]), events[|events| - 1]);
    }
  }

  /** An input that is accepted: well-formed, and its avatar, if it is one of our files, is known to be the
      profile's own. */
  ghost predicate Accepted(f: Files, uploads: UploadRows, e: Event)
    requires e.UpdateBy?
  {
    && !Malformed(e.input, e.absoluteHttp)
    && forall key :: NamesOurs(Some(f), e.input.avatarUrl, key) ==> e.lookupWorks && OwnedIn(uploads, key, e.user.id)
  }

  /** The value last sent for a field of row `id` in an input that was accepted. */
  ghost function LastAccepted(f: Files, events: seq<Event>, id: int, field: Input -> Option<string>): Option<string> {
    if events == [] then None
    else
      var front, last := events[..|events| - 1], events[|events| - 1];
      var t := Run(f, front);
      if last.UpdateBy? && last.user.id == id && id in t.db.rows && Accepted(f, t.uploads, last)
         && field(last.input).Some?
      then field(last.input)
      else LastAccepted(f, front, id, field)
  }

  lemma AcceptedProceeds(f: Files, uploads: UploadRows, e: Event)
    requires e.UpdateBy?
    ensures Accepted(f, uploads, e) <==>
              Check(Some(f), uploads, Some(e.user), e.input, e.absoluteHttp, e.lookupWorks).Proceed?
  {
    CheckExactly(Some(f), uploads, Some(e.user), e.input, e.absoluteHttp, e.lookupWorks);
  }

  lemma {:induction false} NothingAcceptedYet(f: Files, events: seq<Event>, id: int, field: Input -> Option<string>)
    requires id !in Run(f, events).db.rows
    ensures LastAccepted(f, events, id, field).None?
  {
    if events != [] {
      var front := events[..|events| - 1];
      RunsKeepStoredForm(f, front);
      RowsOnlyGrow(f, Run(f, front), events[|events| - 1]);
      NothingAcceptedYet(f, front, id, field);
    }
  }

  lemma RowsOnlyGrow(f: Files, t: Tables, e: Event)
    requires WellKeyed(t.db)
    ensures t.db.rows.Keys <= Do(f, t, e).db.rows.Keys
  {
    if e.SignIn? {
      UpsertKeepsKeys(t.db, e.sub, e.now);
    }
  }

  /** What the columns of a row have come to: each follows the last accepted value sent for it. */
  ghost predicate ColumnsFollow(f: Files, row: Profile, avatar: Option<string>, name: Option<string>,
                                bio: Option<string>) {
    && Follows(row.displayName, None, name)
    && Follows(row.bio, None, bio)
    && AvatarFollows(Some(f), row.avatarUrl, None, avatar)
  }

  function Later(sent: Option<string>, before: Option<string>): Option<string> {
    if sent.Some? then sent else before
  }

  lemma UpdateKeepsFollowing(f: Files, t: Tables, e: Event, avatar: Option<string>, name: Option<string>,
                             bio: Option<string>)
    requires e.UpdateBy? && e.user.id in t.db.rows && Accepted(f, t.uploads, e)
    requires ColumnsFollow(f, t.db.rows[e.user.id], avatar, name, bio)
    ensures e.user.id in Do(f, t, e).db.rows
    ensures ColumnsFollow(f, Do(f, t, e).db.rows[e.user.id], Later(e.input.avatarUrl, avatar),
                          Later(e.input.displayName, name), Later(e.input.bio, bio))
  {
    var was, row := t.db.rows[e.user.id], Do(f, t, e).db.rows[e.user.id];
    var c := Check(Some(f), t.uploads, Some(e.user), e.input, e.absoluteHttp, e.lookupWorks);
    AcceptedProceeds(f, t.uploads, e);
    CheckExactly(Some(f), t.uploads, Some(e.user), e.input, e.absoluteHttp, e.lookupWorks);
    UpdatedRowIsUpdate(was, c.params, e.now);
    AcceptedAvatarFollows(Some(f), t.uploads, Some(e.user), e.input, e.absoluteHttp, e.lookupWorks,
                          row.avatarUrl, was.avatarUrl);
  }

  lemma OtherEventsKeepRow(f: Files, t: Tables, e: Event, id: int)
    requires WellKeyed(t.db) && id in t.db.rows
    requires e.UpdateBy? ==> e.user.id != id || !Accepted(f, t.uploads, e)
    ensures var was := t.db.rows[id];
            && id in Do(f, t, e).db.rows
            && Do(f, t, e).db.rows[id].(updatedAt := was.updatedAt) == was
  {
    if e.SignIn? {
      UpsertKeepsKeys(t.db, e.sub, e.now);
    } else if e.UpdateBy? {
      AcceptedProceeds(f, t.uploads, e);
    }
  }

  lemma NewRowIsEmpty(f: Files, t: Tables, e: Event, id: int)
    requires WellKeyed(t.db) && id !in t.db.rows && id in Do(f, t, e).db.rows
    ensures ColumnsFollow(f, Do(f, t, e).db.rows[id], None, None, None) && e.SignIn?
  {
    if e.SignIn? {
      UpsertKeepsKeys(t.db, e.sub, e.now);
    }
  }

  /** Over any run of sign-ins, uploads and profile updates, each column of a row holds what was last
      accepted for that column: as sent, or nothing if that was blank or nothing ever was; an avatar of
      ours as its permanent link. Refused inputs, and what is sent for other columns or other rows, have
      no effect on it. */
  lemma {:induction false} ColumnsFollowAcceptedInput(f: Files, events: seq<Event>, id: int)
    requires id in Run(f, events).db.rows
    ensures ColumnsFollow(f, Run(f, events).db.rows[id],
                          LastAccepted(f, events, id, (i: Input) => i.avatarUrl),
                          LastAccepted(f, events, id, (i: Input) => i.displayName),
                          LastAccepted(f, events, id, (i: Input) => i.bio))
  {
    var front, last := events[..|events| - 1], events[|events| - 1];
    var t := Run(f, front);
    RunsKeepStoredForm(f, front);
    if id !in t.db.rows {
      NewRowIsEmpty(f, t, last, id);
      NothingAcceptedYet(f, front, id, (i: Input) => i.avatarUrl);
      NothingAcceptedYet(f, front, id, (i: Input) => i.displayName);
      NothingAcceptedYet(f, front, id, (i: Input) => i.bio);
    } else {
      ColumnsFollowAcceptedInput(f, front, id);
      if last.UpdateBy? && last.user.id == id && Accepted(f, t.uploads, last) {
        UpdateKeepsFollowing(f, t, last,
                             LastAccepted(f, front, id, (i: Input) => i.avatarUrl),
                             LastAccepted(f, front, id, (i: Input) => i.displayName),
                             LastAccepted(f, front, id, (i: Input) => i.bio));
      } else {
        OtherEventsKeepRow(f, t, last, id);
      }
    }
  }

  /** After any run, an avatar in our own storage is the permanent link of a file its profile owns, and
      is served back as a working link for that same key. */
  lemma OwnAvatarsAreServedBack(f: Files, events: seq<Event>, id: int, signature: string)
    requires var t := Run(f, events);
             id in t.db.rows && t.db.rows[id].avatarUrl.Some? && KeyFromLink(f.base, t.db.rows[id].avatarUrl.value).Some?
    ensures var t := Run(f, events);
            var stored := t.db.rows[id].avatarUrl;
            var key := KeyFromLink(f.base, stored.value).value;
            && stored.value == PermanentLink(f.base, key)
            && Uploads.Owns(t.uploads, key, id)
            && var served := LinkFor(f.base, f.isPublic, key, Some(signature));
            && AvatarLink(Some(f), t.uploads, id, stored, true, Some(signature)) == served
            && KeyFromLink(f.base, served.value) == Some(key)
  {
    RunsKeepStoredForm(f, events);
    var t := Run(f, events);
    var stored := t.db.rows[id].avatarUrl.value;
    OwnFileIsServed(f, t.uploads, id, stored, signature);
    var key :| PlainKey(key) && stored == PermanentLink(f.base, key) && Uploads.Owns(t.uploads, key, id);
    KeyFromLinkExactly(f.base, stored, key);
  }
}
