/**
 * The artist directory's value-level logic: the artist record, the registration
 * form checks of `submitNewArtist`, and the match rule of `lookupArtist`, with the
 * JavaScript string helpers they use (`trim`, `toLowerCase`, `replace(/-/g, '')`,
 * `includes`).
 */
module Artists {

  import opened Wrappers

  datatype ArtistStatus = Pending | Approved

  /** An artist profile; optional fields the form leaves empty are `""`. */
  datatype Artist = Artist(
    id: string,
    name: string,
    phone: string,
    artist: string,
    genre: string,
    instagram: string,
    tiktok: string,
    youtube: string,
    twitter: string,
    videoUrl: string,
    videoLineId: string,
    lineId: string,
    note: string,
    status: ArtistStatus,
    createdAt: string)

  // ---------------------------------------------------------------------------
  // String helpers
  // ---------------------------------------------------------------------------

  /** The characters `String.prototype.trim` strips: white space and line terminators. */
  predicate IsJsSpace(c: char)
  {
    c == '\t' || c == '\n' || c == '\U{B}' || c == '\U{C}' || c == '\r' || c == ' '
    || c == '\U{A0}' || c == '\U{1680}' || ('\U{2000}' <= c <= '\U{200A}')
    || c == '\U{2028}' || c == '\U{2029}' || c == '\U{202F}' || c == '\U{205F}'
    || c == '\U{3000}' || c == '\U{FEFF}'
  }

  /** A string with nothing but white space in it (`!s.trim()`). */
  predicate Blank(s: string)
  {
    forall i :: 0 <= i < |s| ==> IsJsSpace(s[i])
  }

  /** `s.trimStart()`. */
  function TrimStart(s: string): string
  {
    if s != [] && IsJsSpace(s[0]) then TrimStart(s[1..]) else s
  }

  /** `trimStart` drops a blank prefix and stops at the first non-space character. */
  lemma {:induction false} TrimStartSpec(s: string)
    ensures var r := TrimStart(s);
      && |r| <= |s| && r == s[|s| - |r|..]
      && Blank(s[..|s| - |r|])
      && (r == [] || !IsJsSpace(r[0]))
  {
    if s != [] && IsJsSpace(s[0]) {
      TrimStartSpec(s[1..]);
      var r := TrimStart(s[1..]);
      assert s[..|s| - |r|] == [s[0]] + s[1..][..|s[1..]| - |r|];
    }
  }

  /** `s.trimEnd()`. */
  function TrimEnd(s: string): string
  {
    if s != [] && IsJsSpace(s[|s| - 1]) then TrimEnd(s[..|s| - 1]) else s
  }

  /** `trimEnd` drops a blank suffix and stops at the last non-space character. */
  lemma {:induction false} TrimEndSpec(s: string)
    ensures var r := TrimEnd(s);
      && |r| <= |s| && r == s[..|r|]
      && Blank(s[|r|..])
      && (r == [] || !IsJsSpace(r[|r| - 1]))
  {
    if s != [] && IsJsSpace(s[|s| - 1]) {
      TrimEndSpec(s[..|s| - 1]);
      var r := TrimEnd(s[..|s| - 1]);
      assert s[|r|..] == s[..|s| - 1][|r|..] + [s[|s| - 1]];
    }
  }

  /**
   * `s.trim()`: the input with white space stripped at both ends and kept inside;
   * empty exactly when the input is blank.
   */
  function Trim(s: string): (r: string)
    ensures r == [] <==> Blank(s)
    ensures r == [] || (!IsJsSpace(r[0]) && !IsJsSpace(r[|r| - 1]))
  {
    TrimBothEnds(s);
    TrimEnd(TrimStart(s))
  }

  lemma TrimBothEnds(s: string)
    ensures var r := TrimEnd(TrimStart(s));
      && (r == [] <==> Blank(s))
      && (r == [] || (!IsJsSpace(r[0]) && !IsJsSpace(r[|r| - 1])))
  {
    TrimStartSpec(s);
    var t := TrimStart(s);
    TrimEndSpec(t);
    var i := |s| - |t|;
    var r := TrimEnd(t);
    if r == [] {
      assert t[|r|..] == t;
      assert s[..i] == s;
    } else {
      assert r[0] == t[0];
    }
  }

  /** `toLowerCase` on Latin letters, ASCII and full-width. */
  function LowerChar(c: char): char
  {
    if 'A' <= c <= 'Z' then (c as int + 32) as char
    else if '\U{FF21}' <= c <= '\U{FF3A}' then (c as int + 32) as char
    else c
  }

  /** An ASCII or full-width Latin capital. */
  predicate IsUpper(c: char)
  {
    'A' <= c <= 'Z' || '\U{FF21}' <= c <= '\U{FF3A}'
  }

  /**
   * `toLowerCase` on a whole string: no capital is left, each capital becomes the
   * small letter 32 code points above it, and every other character stays put.
   */
  function Lower(s: string): (r: string)
    ensures |r| == |s|
    ensures forall i :: 0 <= i < |r| ==> !IsUpper(r[i])
    ensures forall i :: 0 <= i < |s| && IsUpper(s[i]) ==> r[i] as int == s[i] as int + 32
    ensures forall i :: 0 <= i < |s| && !IsUpper(s[i]) ==> r[i] == s[i]
  {
    seq(|s|, i requires 0 <= i < |s| => LowerChar(s[i]))
  }

  /** Lowering twice is lowering once. */
  lemma LowerIdempotent(s: string)
    ensures Lower(Lower(s)) == Lower(s)
  {
    var r := Lower(s);
    assert forall i :: 0 <= i < |r| ==> Lower(r)[i] == r[i];
  }

  /** `s.replace(/-/g, '')`. */
  function StripHyphens(s: string): (r: string)
    ensures '-' !in r
    ensures forall c :: c != '-' ==> (c in r <==> c in s)
  {
    if s == [] then []
    else
      var rest := StripHyphens(s[1..]);
      assert forall c :: c in s <==> c == s[0] || c in s[1..];
      if s[0] == '-' then rest else [s[0]] + rest
  }

  /**
   * Stripping works piece by piece: the kept characters of `a` come before those
   * of `b`, each in its own order and count, so one character is kept exactly when
   * it is not a hyphen.
   */
  lemma {:induction false} StripHyphensConcat(a: string, b: string)
    ensures StripHyphens(a + b) == StripHyphens(a) + StripHyphens(b)
    ensures forall c :: StripHyphens([c]) == if c == '-' then [] else [c]
  {
    if a == [] {
      assert a + b == b;
    } else {
      assert (a + b)[1..] == a[1..] + b;
      StripHyphensConcat(a[1..], b);
    }
  }

  /** `s.includes(sub)`. */
  predicate Contains(s: string, sub: string)
  {
    exists i | 0 <= i <= |s| - |sub| :: OccursAt(s, sub, i)
  }

  predicate OccursAt(s: string, sub: string, i: int)
  {
    0 <= i <= |s| - |sub| && s[i..i + |sub|] == sub
  }

  // ---------------------------------------------------------------------------
  // Registration (submitNewArtist)
  // ---------------------------------------------------------------------------

  /** The registration form as typed, before trimming. */
  datatype Registration = Registration(
    name: string,
    phone: string,
    artist: string,
    genre: string,
    instagram: string,
    tiktok: string,
    youtube: string,
    twitter: string,
    videoUrl: string,
    videoLineId: string,
    lineId: string,
    note: string)

  /** Why a registration is turned away, one per message of the source. */
  datatype RegistrationError =
    | MissingNameOrPhone
    | MissingArtistName
    | MissingLineId
    | NoSocialAccount
    | NoDemoVideo

  /**
   * The checks of `submitNewArtist`, in the source's order: the first one that fails
   * is reported, and none fails exactly when every business minimum is met.
   */
  function CheckRegistration(f: Registration): (r: Option<RegistrationError>)
    ensures r == None <==>
      && !Blank(f.name) && !Blank(f.phone) && !Blank(f.artist) && !Blank(f.lineId)
      && (!Blank(f.instagram) || !Blank(f.tiktok) || !Blank(f.youtube) || !Blank(f.twitter))
      && (!Blank(f.videoUrl) || !Blank(f.videoLineId))
    ensures r == Some(MissingNameOrPhone) <==> Blank(f.name) || Blank(f.phone)
    ensures r == Some(MissingArtistName) <==> !Blank(f.name) && !Blank(f.phone) && Blank(f.artist)
    ensures r == Some(MissingLineId) <==>
      !Blank(f.name) && !Blank(f.phone) && !Blank(f.artist) && Blank(f.lineId)
    ensures r == Some(NoSocialAccount) <==>
      && !Blank(f.name) && !Blank(f.phone) && !Blank(f.artist) && !Blank(f.lineId)
      && Blank(f.instagram) && Blank(f.tiktok) && Blank(f.youtube) && Blank(f.twitter)
    ensures r == Some(NoDemoVideo) <==>
      && !Blank(f.name) && !Blank(f.phone) && !Blank(f.artist) && !Blank(f.lineId)
      && (!Blank(f.instagram) || !Blank(f.tiktok) || !Blank(f.youtube) || !Blank(f.twitter))
      && Blank(f.videoUrl) && Blank(f.videoLineId)
  {
    if Trim(f.name) == "" || Trim(f.phone) == "" then Some(MissingNameOrPhone)
    else if Trim(f.artist) == "" then Some(MissingArtistName)
    else if Trim(f.lineId) == "" then Some(MissingLineId)
    else if Trim(f.instagram) == "" && Trim(f.tiktok) == "" && Trim(f.youtube) == ""
            && Trim(f.twitter) == "" then Some(NoSocialAccount)
    else if Trim(f.videoUrl) == "" && Trim(f.videoLineId) == "" then Some(NoDemoVideo)
    else None
  }

  /** The record `submitNewArtist` stores: every field trimmed, status `pending`. */
  function NewArtist(f: Registration, id: string, createdAt: string): (a: Artist)
    ensures a.id == id && a.status == Pending && a.createdAt == createdAt
    ensures a.name == Trim(f.name) && a.phone == Trim(f.phone) && a.artist == Trim(f.artist)
    ensures a.lineId == Trim(f.lineId)
  {
    Artist(id, Trim(f.name), Trim(f.phone), Trim(f.artist), Trim(f.genre),
           Trim(f.instagram), Trim(f.tiktok), Trim(f.youtube), Trim(f.twitter),
           Trim(f.videoUrl), Trim(f.videoLineId), Trim(f.lineId), Trim(f.note),
           Pending, createdAt)
  }

  // ---------------------------------------------------------------------------
  // Lookup (lookupArtist)
  // ---------------------------------------------------------------------------

  /**
   * The match rule of `lookupArtist` for an already trimmed, lower-cased query `q`:
   * the hyphen-free phone contains the hyphen-free query, or the lower-cased name or
   * (non-empty) stage name contains the query.
   */
  predicate Matches(a: Artist, q: string)
  {
    Contains(StripHyphens(a.phone), StripHyphens(q))
    || Contains(Lower(a.name), q)
    || (a.artist != "" && Contains(Lower(a.artist), q))
  }

  /** The position in `order` of the first artist matching `q`, or `|order|` if none does. */
  function FirstMatch(artists: map<string, Artist>, order: seq<string>, q: string): (i: nat)
    requires forall k :: 0 <= k < |order| ==> order[k] in artists
    ensures i <= |order|
    ensures forall k :: 0 <= k < i ==> !Matches(artists[order[k]], q)
    ensures i < |order| ==> Matches(artists[order[i]], q)
  {
    if order == [] then 0
    else if Matches(artists[order[0]], q) then 0
    else 1 + FirstMatch(artists, order[1..], q)
  }

  /** What the lookup panel shows. */
  datatype LookupResult =
    | BlankQuery                            // nothing happens
    | NotFound                              // "not found" panel
    | Found(id: string, canProceed: bool)   // found; the proceed button is enabled only if approved

  /**
   * `lookupArtist` over the directory in insertion order: a blank query does
   * nothing; otherwise the first matching artist is reported, and booking may
   * proceed only for an approved one, so a pending match stays distinct from
   * "not found".
   */
  function LookupArtist(artists: map<string, Artist>, order: seq<string>, query: string): (r: LookupResult)
    requires forall k :: 0 <= k < |order| ==> order[k] in artists
    ensures r == BlankQuery <==> Blank(query)
    ensures r == NotFound <==>
      !Blank(query) && forall k :: 0 <= k < |order| ==> !Matches(artists[order[k]], Lower(Trim(query)))
    ensures r.Found? ==>
      exists i :: 0 <= i < |order| && order[i] == r.id
        && Matches(artists[r.id], Lower(Trim(query)))
        && (forall k :: 0 <= k < i ==> !Matches(artists[order[k]], Lower(Trim(query))))
    ensures r.Found? ==> r.id in artists && (r.canProceed <==> artists[r.id].status == Approved)
  {
    var q := Lower(Trim(query));
    if q == "" then BlankQuery
    else
      var i := FirstMatch(artists, order, q);
      if i == |order| then NotFound
      else Found(order[i], artists[order[i]].status == Approved)
  }
}
