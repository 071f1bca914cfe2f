/** The address of a stored file, and the key behind an address (internal/upload/service.go). */
module FileLinks {
  import opened Basics

  /** strings.Cut(s, "?"): what comes before the first question mark. */
  function BeforeQuery(s: string): string {
    if s == "" || s[0] == '?' then "" else [s[0]] + BeforeQuery(s[1..])
  }

  predicate HasDotDot(s: string) {
    exists i :: 0 <= i < |s| - 1 && s[i] == '.' && s[i + 1] == '.'
  }

  /** A key that names an object under the bucket and nothing else. */
  ghost predicate PlainKey(key: string) {
    && key != "" && key[0] != '/' && '?' !in key
    && forall i :: 0 < i < |key| && key[i] == '.' ==> key[i - 1] != '.'
  }

  /** `base` is S3_PUBLIC_BASE_URL. */
  function PermanentLink(base: string, key: string): string {
    base + "/" + key
  }

  function KeyFromLink(base: string, link: string): Option<string> {
    var rest := CutPrefix(link, base + "/");
    if rest.None? then None
    else
      var key := BeforeQuery(rest.value);
      if key == "" || HasPrefix(key, "/") || HasDotDot(key) then None else Some(key)
  }

  /** LinkFor: the permanent link in public mode, else the same with a signature query, when signing
      works. */
  function LinkFor(base: string, isPublic: bool, key: string, signature: Option<string>): Option<string> {
    if isPublic then Some(PermanentLink(base, key))
    else if signature.None? then None
    else Some(PermanentLink(base, key) + "?" + signature.value)
  }

  // ---------- the key of a link ----------

  lemma {:induction false} BeforeQueryIsCut(s: string)
    ensures var cut := BeforeQuery(s);
            '?' !in cut && (s == cut || (|cut| < |s| && s == cut + "?" + s[|cut| + 1..]))
  {
    if s != "" && s[0] != '?' {
      BeforeQueryIsCut(s[1..]);
      var cut := BeforeQuery(s[1..]);
      assert s == [s[0]] + s[1..];
      if s[1..] != cut {
        assert s[1..] == cut + "?" + s[1..][|cut| + 1..];
        assert s == [s[0]] + cut + "?" + s[|cut| + 2..];
      }
    } else if s != "" {
      assert s == "" + "?" + s[1..];
    }
  }

  lemma {:induction false} BeforeQueryOfCut(cut: string, query: string)
    requires '?' !in cut
    ensures BeforeQuery(cut) == cut && BeforeQuery(cut + "?" + query) == cut
  {
    if cut == "" {
      assert (cut + "?" + query)[0] == '?';
    } else {
      BeforeQueryOfCut(cut[1..], query);
      assert (cut + "?" + query)[1..] == cut[1..] + "?" + query;
    }
  }

  /** A link is for `key` with, possibly, a query appended. */
  ghost predicate Addresses(base: string, link: string, key: string) {
    link == base + "/" + key || base + "/" + key + "?" <= link
  }

  lemma PlainHasNoDotDot(key: string)
    ensures HasDotDot(key) <==> exists i :: 0 < i < |key| && key[i] == '.' && key[i - 1] == '.'
  {
    if HasDotDot(key) {
      var i :| 0 <= i < |key| - 1 && key[i] == '.' && key[i + 1] == '.';
      assert key[i + 1 - 1] == '.';
    }
    if i :| 0 < i < |key| && key[i] == '.' && key[i - 1] == '.' {
      assert key[i - 1 + 1] == '.';
    }
  }

  lemma KeyIsOfItsLink(base: string, link: string, key: string)
    requires KeyFromLink(base, link) == Some(key)
    ensures PlainKey(key) && Addresses(base, link, key)
  {
    var rest := CutPrefix(link, base + "/").value;
    PlainHasNoDotDot(key);
    BeforeQueryIsCut(rest);
    if rest != key {
      assert link == PermanentLink(base, key) + "?" + rest[|key| + 1..];
    }
  }

  lemma LinkHasItsKey(base: string, link: string, key: string)
    requires PlainKey(key) && Addresses(base, link, key)
    ensures KeyFromLink(base, link) == Some(key)
  {
    var permanent := PermanentLink(base, key);
    PlainHasNoDotDot(key);
    if link == permanent {
      CutPrefixOfConcat(base + "/", key);
      BeforeQueryOfCut(key, "");
    } else {
      var query := link[|permanent| + 1..];
      assert link == (base + "/") + (key + "?" + query);
      CutPrefixOfConcat(base + "/", key + "?" + query);
      BeforeQueryOfCut(key, query);
    }
  }

  /** A link has the key `key` exactly when the key is plain and the link is its permanent link, with
      or without a query. So KeyFromLink undoes PermanentLink and LinkFor on all plain keys, and on no
      others; and it refuses every link that does not lead to a plain key under `base`. */
  lemma KeyFromLinkExactly(base: string, link: string, key: string)
    ensures KeyFromLink(base, link) == Some(key) <==> PlainKey(key) && Addresses(base, link, key)
  {
    if KeyFromLink(base, link) == Some(key) {
      KeyIsOfItsLink(base, link, key);
    }
    if PlainKey(key) && Addresses(base, link, key) {
      LinkHasItsKey(base, link, key);
    }
  }

  /** In public mode the link handed out is the bare permanent one, whether or not signing works; in
      private mode it is that link with the signature as its query, and there is none without one. */
  lemma LinkIsSignedExactlyWhenPrivate(base: string, isPublic: bool, key: string, signature: Option<string>)
    ensures var link := LinkFor(base, isPublic, key, signature);
            && (link.None? <==> !isPublic && signature.None?)
            && (isPublic ==> link == Some(base + "/" + key))
            && (!isPublic && signature.Some? ==> link == Some(base + "/" + key + "?" + signature.value))
  {
  }

  /** Whatever link is handed out for a key, the key comes back from it exactly when it is plain. */
  lemma KeyComesBackFromItsLink(base: string, isPublic: bool, key: string, signature: Option<string>)
    requires LinkFor(base, isPublic, key, signature).Some?
    ensures KeyFromLink(base, LinkFor(base, isPublic, key, signature).value) == Some(key) <==> PlainKey(key)
  {
    var link := LinkFor(base, isPublic, key, signature).value;
    KeyFromLinkExactly(base, link, key);
    if !isPublic {
      assert link[..|PermanentLink(base, key)| + 1] == PermanentLink(base, key) + "?";
    }
  }

  // ---------- the keys the service makes ----------

  /** The layout 2006/01/02/15-04. */
  predicate IsStamp(s: string) {
    && |s| == 16
    && s[4] == '/' && s[7] == '/' && s[10] == '/' && s[13] == '-'
    && forall i :: 0 <= i < 16 && i != 4 && i != 7 && i != 10 && i != 13 ==> IsDigit(s[i])
  }

  predicate IsUuid(s: string) {
    |s| == 36 && forall i :: 0 <= i < 36 ==> IsDigit(s[i]) || 'a' <= s[i] <= 'f' || s[i] == '-'
  }

  /** The values of allowedMimeTypes. */
  const EXTENSIONS: set<string> := {".png", ".jpg", ".gif", ".webp"}

  /** objectKey, for a time and a random name already formatted; the join leaves such parts as they are. */
  function ObjectKey(stamp: string, uuid: string, extension: string): string {
    stamp + "/" + uuid + extension
  }

  /** Two keys the service makes are the same only for the same time, random name and type: random names
      that differ make keys that differ. */
  lemma MadeKeysAreDistinct(stamp: string, uuid: string, extension: string,
                            stamp': string, uuid': string, extension': string)
    requires IsStamp(stamp) && IsUuid(uuid) && IsStamp(stamp') && IsUuid(uuid')
    requires ObjectKey(stamp, uuid, extension) == ObjectKey(stamp', uuid', extension')
    ensures stamp == stamp' && uuid == uuid' && extension == extension'
  {
    var key := ObjectKey(stamp, uuid, extension);
    assert key[..16] == stamp && key[17..53] == uuid && key[53..] == extension;
    var key' := ObjectKey(stamp', uuid', extension');
    assert key'[..16] == stamp' && key'[17..53] == uuid' && key'[53..] == extension';
  }

  /** Every key the service makes is plain, so each of its links leads back to it. */
  lemma MadeKeysArePlain(stamp: string, uuid: string, extension: string)
    requires IsStamp(stamp) && IsUuid(uuid) && extension in EXTENSIONS
    ensures PlainKey(ObjectKey(stamp, uuid, extension))
  {
  }
}
