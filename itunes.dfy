/** The iTunes cover lookup (`src/lib/itunes.ts`): name normalisation, the
    artist search, the discography lookup and the album match. The two HTTP
    endpoints are parameters of the model: each maps a request to the reply
    body, or to a network failure. */
module ITunes {
  import opened Wrappers
  import opened Text
  import Seqs

  // ----- normalize -----

  /** The characters `normalize` keeps: `[a-z0-9 ]`. */
  predicate IsAllowed(c: char) {
    'a' <= c <= 'z' || '0' <= c <= '9' || c == ' '
  }

  /** A combining diacritical mark, U+0300 to U+036F. */
  predicate IsMark(c: char) {
    '\U{0300}' <= c <= '\U{036F}'
  }

  predicate IsUnmarked(c: char) {
    !IsMark(c)
  }

  /** One canonical decomposition: a precomposed letter is a base letter
      followed by a combining mark. */
  datatype Decomposition = Decomposition(precomposed: char, base: char, mark: char)

  /** The canonical decompositions (Unicode form D) of the lower-case
      Latin-1 letters. */
  const NfdTable: seq<Decomposition> := [
      Decomposition('\U{00E0}', 'a', '\U{0300}'),
      Decomposition('\U{00E1}', 'a', '\U{0301}'),
      Decomposition('\U{00E2}', 'a', '\U{0302}'),
      Decomposition('\U{00E3}', 'a', '\U{0303}'),
      Decomposition('\U{00E4}', 'a', '\U{0308}'),
      Decomposition('\U{00E5}', 'a', '\U{030A}'),
      Decomposition('\U{00E7}', 'c', '\U{0327}'),
      Decomposition('\U{00E8}', 'e', '\U{0300}'),
      Decomposition('\U{00E9}', 'e', '\U{0301}'),
      Decomposition('\U{00EA}', 'e', '\U{0302}'),
      Decomposition('\U{00EB}', 'e', '\U{0308}'),
      Decomposition('\U{00EC}', 'i', '\U{0300}'),
      Decomposition('\U{00ED}', 'i', '\U{0301}'),
      Decomposition('\U{00EE}', 'i', '\U{0302}'),
      Decomposition('\U{00EF}', 'i', '\U{0308}'),
      Decomposition('\U{00F1}', 'n', '\U{0303}'),
      Decomposition('\U{00F2}', 'o', '\U{0300}'),
      Decomposition('\U{00F3}', 'o', '\U{0301}'),
      Decomposition('\U{00F4}', 'o', '\U{0302}'),
      Decomposition('\U{00F5}', 'o', '\U{0303}'),
      Decomposition('\U{00F6}', 'o', '\U{0308}'),
      Decomposition('\U{00F9}', 'u', '\U{0300}'),
      Decomposition('\U{00FA}', 'u', '\U{0301}'),
      Decomposition('\U{00FB}', 'u', '\U{0302}'),
      Decomposition('\U{00FC}', 'u', '\U{0308}'),
      Decomposition('\U{00FD}', 'y', '\U{0301}'),
      Decomposition('\U{00FF}', 'y', '\U{0308}')
    ]

  predicate LatinEntry(d: Decomposition) {
    '\U{00E0}' <= d.precomposed <= '\U{00FF}' && 'a' <= d.base <= 'z' && IsMark(d.mark)
  }

  lemma NfdTableLatin()
    ensures forall i :: 0 <= i < |NfdTable| ==> LatinEntry(NfdTable[i])
  {
  }

  /** The base letter of a precomposed lower-case Latin-1 letter; any other
      character is its own base. */
  function BaseOf(c: char): char {
    if '\U{00E0}' <= c <= '\U{00E5}' then 'a'
    else if c == '\U{00E7}' then 'c'
    else if '\U{00E8}' <= c <= '\U{00EB}' then 'e'
    else if '\U{00EC}' <= c <= '\U{00EF}' then 'i'
    else if c == '\U{00F1}' then 'n'
    else if '\U{00F2}' <= c <= '\U{00F6}' then 'o'
    else if '\U{00F9}' <= c <= '\U{00FC}' then 'u'
    else if c == '\U{00FD}' || c == '\U{00FF}' then 'y'
    else c
  }

  /** The combining mark of a precomposed lower-case Latin-1 letter. */
  function MarkOf(c: char): char {
    if c == '\U{00E0}' || c == '\U{00E8}' || c == '\U{00EC}' || c == '\U{00F2}' || c == '\U{00F9}' then '\U{0300}'
    else if c == '\U{00E1}' || c == '\U{00E9}' || c == '\U{00ED}' || c == '\U{00F3}' || c == '\U{00FA}' || c == '\U{00FD}' then '\U{0301}'
    else if c == '\U{00E2}' || c == '\U{00EA}' || c == '\U{00EE}' || c == '\U{00F4}' || c == '\U{00FB}' then '\U{0302}'
    else if c == '\U{00E3}' || c == '\U{00F1}' || c == '\U{00F5}' then '\U{0303}'
    else if c == '\U{00E5}' then '\U{030A}'
    else if c == '\U{00E7}' then '\U{0327}'
    else '\U{0308}'
  }

  /** `normalize("NFD")` on one character of lower-case text. */
  function Decompose(c: char): string {
    if BaseOf(c) != c then [BaseOf(c), MarkOf(c)] else [c]
  }

  /** A character is either left alone or split into a plain letter and a
      combining mark; only Latin-1 letters are split. */
  lemma DecomposeShape(c: char)
    ensures Decompose(c) == [c] || (
      && |Decompose(c)| == 2 && '\U{00E0}' <= c <= '\U{00FF}'
      && 'a' <= Decompose(c)[0] <= 'z' && IsMark(Decompose(c)[1]))
  {
  }

  /** `Decompose` splits every letter of the table into the base letter and
      the mark the table gives it. */
  lemma DecomposeAgreesWithTable()
    ensures forall i :: 0 <= i < |NfdTable| ==>
              Decompose(NfdTable[i].precomposed) == [NfdTable[i].base, NfdTable[i].mark]
  {
  }

  /** `normalize("NFD")` on the output of `toLowerCase`: each character
      gives one or two. */
  function Nfd(s: string): (r: string)
    ensures |s| <= |r| <= 2 * |s|
  {
    if s == [] then [] else Decompose(s[0]) + Nfd(s[1..])
  }

  /** `.replace(/[\u0300-\u036f]/g, "")`. */
  function StripMarks(s: string): string {
    Seqs.Filter(s, IsUnmarked)
  }

  /** `.replace(/[^a-z0-9 ]/g, "")`. */
  function KeepAllowed(s: string): string {
    Seqs.Filter(s, IsAllowed)
  }

  /** What the four character-wise steps of `normalize` (lower case,
      decompose, strip marks, keep `[a-z0-9 ]`) make of one character. */
  function FoldChar(c: char): (r: string)
    ensures forall i :: 0 <= i < |r| ==> IsAllowed(r[i])
  {
    KeepAllowed(StripMarks(Decompose(LowerChar(c))))
  }

  lemma FoldAllowedChar(c: char)
    requires IsAllowed(c)
    ensures FoldChar(c) == [c]
  {
    DecomposeShape(c);
  }

  /** The character-wise steps of `normalize` over a whole string. */
  function Fold(s: string): (r: string)
    ensures forall i :: 0 <= i < |r| ==> IsAllowed(r[i])
  {
    if s == [] then [] else FoldChar(s[0]) + Fold(s[1..])
  }

  /** `normalize`: lower case, accents removed, only letters, digits and
      spaces, no space at either end. */
  function Normalize(s: string): (r: string)
    ensures forall i :: 0 <= i < |r| ==> IsAllowed(r[i])
    ensures r == [] || (r[0] != ' ' && r[|r| - 1] != ' ')
  {
    var f := Fold(s);
    TrimAllowed(f);
    Trim(f)
  }

  /** Trimming a string of allowed characters leaves allowed characters. */
  lemma TrimAllowed(f: string)
    requires forall i :: 0 <= i < |f| ==> IsAllowed(f[i])
    ensures forall i :: 0 <= i < |Trim(f)| ==> IsAllowed(Trim(f)[i])
  {
    var r := Trim(f);
    var k := |f| - |TrimStart(f)|;
    TrimSlice(f);
    assert forall i :: 0 <= i < |r| ==> r[i] == f[k + i];
  }

  lemma {:induction false} FoldIsPipeline(s: string)
    ensures Fold(s) == KeepAllowed(StripMarks(Nfd(ToLower(s))))
  {
    if s != [] {
      FoldIsPipeline(s[1..]);
      var d := Decompose(LowerChar(s[0]));
      assert ToLower(s) == [LowerChar(s[0])] + ToLower(s[1..]);
      assert ToLower(s)[1..] == ToLower(s[1..]);
      var n := Nfd(ToLower(s[1..]));
      assert Nfd(ToLower(s)) == d + n;
      Seqs.FilterAppend(d, n, IsUnmarked);
      Seqs.FilterAppend(StripMarks(d), StripMarks(n), IsAllowed);
    }
  }

  /** `normalize` is the chain of the source: `toLowerCase`, `normalize("NFD")`,
      removal of the combining marks, removal of everything outside
      `[a-z0-9 ]`, `trim`. */
  lemma NormalizeIsPipeline(s: string)
    ensures Normalize(s) == Trim(KeepAllowed(StripMarks(Nfd(ToLower(s)))))
  {
    FoldIsPipeline(s);
  }

  lemma {:induction false} FoldAllowed(s: string)
    requires forall i :: 0 <= i < |s| ==> IsAllowed(s[i])
    ensures Fold(s) == s
  {
    if s != [] {
      FoldAllowed(s[1..]);
      FoldAllowedChar(s[0]);
    }
  }

  /** A normalized name is its own normalization. */
  lemma NormalizeIdempotent(s: string)
    ensures Normalize(Normalize(s)) == Normalize(s)
  {
    var n := Normalize(s);
    FoldAllowed(n);
    TrimOfTrimmed(n);
  }

  lemma {:induction false} FoldAppend(a: string, b: string)
    ensures Fold(a + b) == Fold(a) + Fold(b)
  {
    if a == [] {
      assert a + b == b;
    } else {
      assert (a + b)[0] == a[0];
      assert (a + b)[1..] == a[1..] + b;
      FoldAppend(a[1..], b);
    }
  }

  lemma {:induction false} FoldLower(s: string)
    ensures Fold(ToLower(s)) == Fold(s)
  {
    if s != [] {
      FoldLower(s[1..]);
      assert ToLower(s) == [LowerChar(s[0])] + ToLower(s[1..]);
      assert LowerChar(LowerChar(s[0])) == LowerChar(s[0]);
    }
  }

  /** Normalization does not see letter case. */
  lemma NormalizeIgnoresCase(s: string)
    ensures Normalize(ToLower(s)) == Normalize(s)
  {
    FoldLower(s);
  }

  /** Characters below the Latin-1 letters are not decomposed. */
  lemma DecomposeBelowLatin(c: char)
    requires c < '\U{00E0}'
    ensures Decompose(c) == [c]
  {
    NfdTableLatin();
  }

  /** Stripping the marks from a letter followed by its mark keeps the letter. */
  lemma StripMarksPair(b: char, m: char)
    requires !IsMark(b) && IsMark(m)
    ensures StripMarks([b, m]) == [b]
  {
    assert [b, m] == [b] + [m];
    Seqs.FilterAppend([b], [m], IsUnmarked);
  }

  /** An accented Latin-1 letter folds like its base letter. */
  lemma FoldAccent(c: char)
    requires |Decompose(c)| == 2
    ensures FoldChar(c) == FoldChar(Decompose(c)[0])
  {
    var d := Decompose(c);
    DecomposeShape(c);
    var b := d[0];
    assert LowerChar(c) == c && LowerChar(b) == b;
    DecomposeBelowLatin(b);
    assert d == [b, d[1]];
    StripMarksPair(b, d[1]);
  }

  /** Normalization does not see accents: an accented Latin-1 letter counts
      as its base letter wherever it occurs. */
  lemma AccentsIgnored(s1: string, c: char, s2: string)
    requires |Decompose(c)| == 2
    ensures Normalize(s1 + [c] + s2) == Normalize(s1 + [Decompose(c)[0]] + s2)
  {
    var b := Decompose(c)[0];
    FoldAppend(s1 + [c], s2);
    FoldAppend(s1, [c]);
    FoldAppend(s1 + [b], s2);
    FoldAppend(s1, [b]);
    FoldAccent(c);
    assert Fold([c]) == FoldChar(c) && Fold([b]) == FoldChar(b);
  }

  // ----- split('(')[0].trim() -----

  /** The artist or album name with any parenthesised suffix cut off. */
  function CleanInput(s: string): (r: string)
    ensures '(' !in r
    ensures r == [] || (!IsSpace(r[0]) && !IsSpace(r[|r| - 1]))
  {
    Trim(Before(s, '('))
  }

  lemma {:induction false} BeforeStops(s: string, t: string)
    requires '(' !in s
    ensures Before(s + "(" + t, '(') == s
  {
    if s != [] {
      assert (s + "(" + t)[1..] == s[1..] + "(" + t;
      BeforeStops(s[1..], t);
    }
  }

  /** A parenthesised suffix is ignored. */
  lemma CleanInputDropsSuffix(s: string, t: string)
    requires '(' !in s
    ensures CleanInput(s + "(" + t) == Trim(s)
  {
    BeforeStops(s, t);
  }

  // ----- the two endpoints -----

  /** An entry of the artist search; `artistId` may be absent. */
  datatype ArtistHit = ArtistHit(artistName: string, artistId: Option<int>)

  /** An entry of the discography lookup. */
  datatype AlbumHit = AlbumHit(collectionType: Option<string>, collectionName: Option<string>, artworkUrl100: string)

  /** The outcome of `fetchItunes`: a network or parse failure, or a body
      whose `results` field may be missing. */
  datatype Fetched<T> = NetworkError | Body(results: Option<seq<T>>)

  /** The `results` that `fetchItunes` hands on: a failure becomes an empty
      list. */
  function Results<T>(f: Fetched<T>): (r: Option<seq<T>>)
    ensures f.NetworkError? ==> r == Some([])
    ensures f.Body? ==> r == f.results
  {
    match f
    case NetworkError => Some([])
    case Body(results) => results
  }

  const SearchEntity := "musicArtist"
  const SearchLimit := 10
  const LookupEntity := "album"
  const LookupLimit := 200
  const Country := "IT"

  /** The requests sent, with their query parameters. */
  datatype ITunesRequest =
    | ArtistSearch(term: string, entity: string, limit: int, country: string)
    | DiscographyLookup(id: int, entity: string, limit: int, country: string)

  // ----- getArtistId -----

  predicate ExactName(clean: string, h: ArtistHit) {
    Normalize(h.artistName) == clean
  }

  predicate LooseName(clean: string, h: ArtistHit) {
    Contains(Normalize(h.artistName), clean)
  }

  function IsExact(clean: string): ArtistHit -> bool {
    h => ExactName(clean, h)
  }

  function IsLoose(clean: string): ArtistHit -> bool {
    h => LooseName(clean, h)
  }

  /** The id of the first hit satisfying `exact`, otherwise of the first
      satisfying `loose`, otherwise nothing. */
  function PickId(hits: seq<ArtistHit>, exact: ArtistHit -> bool, loose: ArtistHit -> bool): (r: Option<int>)
    ensures forall i :: Seqs.FirstWith(hits, exact, i) ==> r == hits[i].artistId
    ensures (forall i :: 0 <= i < |hits| ==> !exact(hits[i])) ==>
              forall i :: Seqs.FirstWith(hits, loose, i) ==> r == hits[i].artistId
    ensures (forall i :: 0 <= i < |hits| ==> !exact(hits[i]) && !loose(hits[i])) ==> r.None?
  {
    match Seqs.FindIndex(hits, exact)
    case Some(i) => hits[i].artistId
    case None =>
      match Seqs.FindIndex(hits, loose)
      case Some(i) => hits[i].artistId
      case None => None
  }

  /** The artist picked for the normalized query `clean`: the id of the
      first hit whose normalized name equals `clean`, otherwise of the first
      whose normalized name contains it, otherwise nothing. */
  function ChooseArtist(hits: seq<ArtistHit>, clean: string): (r: Option<int>)
    ensures forall i :: Seqs.FirstWith(hits, IsExact(clean), i) ==> r == hits[i].artistId
    ensures (forall i :: 0 <= i < |hits| ==> !ExactName(clean, hits[i])) ==>
              forall i :: Seqs.FirstWith(hits, IsLoose(clean), i) ==> r == hits[i].artistId
    ensures (forall i :: 0 <= i < |hits| ==> !LooseName(clean, hits[i])) ==> r.None?
  {
    assert forall i :: 0 <= i < |hits| && !LooseName(clean, hits[i]) ==> !ExactName(clean, hits[i]) by {
      forall i | 0 <= i < |hits| && ExactName(clean, hits[i]) ensures LooseName(clean, hits[i]) {
        ContainsSelf(clean);
      }
    }
    PickId(hits, IsExact(clean), IsLoose(clean))
  }

  /** `getArtistId(artistName)` on the reply of the search: the choice among
      the results for the normalized name; no results field, no artist. */
  function GetArtistId(artistName: string, reply: Fetched<ArtistHit>): (r: Option<int>)
    ensures Results(reply).None? ==> r.None?
    ensures reply.NetworkError? ==> r.None?
  {
    match Results(reply)
    case None => None
    case Some(hits) => ChooseArtist(hits, Normalize(artistName))
  }

  /** When every exact hit is also a loose one, the id picked belongs to a
      loose hit. */
  lemma PickIdSound(hits: seq<ArtistHit>, exact: ArtistHit -> bool, loose: ArtistHit -> bool)
    requires forall h :: exact(h) ==> loose(h)
    requires PickId(hits, exact, loose).Some?
    ensures exists i :: 0 <= i < |hits| && loose(hits[i]) && hits[i].artistId == PickId(hits, exact, loose)
  {
    match Seqs.FindIndex(hits, exact)
    case Some(i) =>
    case None =>
  }

  /** The id chosen belongs to a hit whose normalized name contains the
      query. */
  lemma ChooseArtistSound(hits: seq<ArtistHit>, clean: string)
    requires ChooseArtist(hits, clean).Some?
    ensures exists i :: 0 <= i < |hits| && LooseName(clean, hits[i]) && hits[i].artistId == ChooseArtist(hits, clean)
  {
    forall h | IsExact(clean)(h) ensures IsLoose(clean)(h) {
      ContainsSelf(clean);
    }
    PickIdSound(hits, IsExact(clean), IsLoose(clean));
  }

  // ----- the album match -----

  predicate IsAlbum(a: AlbumHit) {
    a.collectionType == Some("Album")
  }

  /** The normalized titles match when either includes the other. */
  predicate SameAlbum(target: string, a: AlbumHit) {
    var title := Normalize(a.collectionName.GetOr(""));
    Contains(title, target) || Contains(target, title)
  }

  function MatchesTarget(target: string): AlbumHit -> bool {
    a => SameAlbum(target, a)
  }

  /** An album without a name is taken as `""`, which every title includes,
      so it matches any target. */
  lemma MissingNameMatchesAny(target: string, a: AlbumHit)
    requires a.collectionName.None?
    ensures SameAlbum(target, a)
  {
    assert Normalize("") == "";
    ContainsEmpty(target);
  }

  /** The 1000-pixel version of a 100-pixel artwork URL. */
  function LargeArtwork(url: string): (r: string)
    ensures Contains(url, "100x100bb") ==> Contains(r, "1000x1000bb") && |r| == |url| + 2
    ensures !Contains(url, "100x100bb") ==> r == url
    ensures IndexOf(url, "100x100bb").Some? ==>
      var k := IndexOf(url, "100x100bb").value;
      k + 9 <= |url| && r == url[..k] + "1000x1000bb" + url[k + 9..]
  {
    ReplaceFirst(url, "100x100bb", "1000x1000bb")
  }

  /** The outcome of `findITunesCover`: the requests it sent, in order, and
      the cover URL it resolved to. */
  datatype CoverSearch = CoverSearch(requests: seq<ITunesRequest>, cover: Option<string>)

  /** The albums of the discography that the match considers, in order. */
  function Discography(reply: Fetched<AlbumHit>): (r: seq<AlbumHit>)
    ensures forall a :: a in r <==> a in Results(reply).GetOr([]) && IsAlbum(a)
  {
    Seqs.Filter(Results(reply).GetOr([]), IsAlbum)
  }

  /** The cover comes from the first result of the reply, in the reply's
      order, that is an album and satisfies `matches`. */
  lemma DiscographyFirstMatch(reply: Fetched<AlbumHit>, matches: AlbumHit -> bool)
    ensures FirstCover(Discography(reply), matches) ==
      match Seqs.Find(Results(reply).GetOr([]), Seqs.Both(IsAlbum, matches))
      case None => None
      case Some(a) => Some(LargeArtwork(a.artworkUrl100))
  {
    Seqs.FindFiltered(Results(reply).GetOr([]), IsAlbum, matches);
  }

  /** The large artwork of the first album satisfying `matches`. */
  function FirstCover(albums: seq<AlbumHit>, matches: AlbumHit -> bool): (r: Option<string>)
    ensures r.Some? <==> exists i :: 0 <= i < |albums| && matches(albums[i])
    ensures forall i :: Seqs.FirstWith(albums, matches, i) ==> r == Some(LargeArtwork(albums[i].artworkUrl100))
  {
    Seqs.FindIndexFirst(albums, matches);
    match Seqs.FindIndex(albums, matches)
    case Some(i) => Some(LargeArtwork(albums[i].artworkUrl100))
    case None => None
  }

  /** The steps after the artist search: without a (non-zero) id nothing
      more is sent; otherwise the discography is fetched and searched. */
  function CoverSteps(cleanArtist: string, id: Option<int>, matches: AlbumHit -> bool,
                      lookup: int -> Fetched<AlbumHit>): (r: CoverSearch)
    ensures |r.requests| >= 1 && r.requests[0] == ArtistSearch(cleanArtist, SearchEntity, SearchLimit, Country)
    ensures id.None? || id.value == 0 ==> |r.requests| == 1 && r.cover.None?
    ensures id.Some? && id.value != 0 ==>
      && r.requests[1..] == [DiscographyLookup(id.value, LookupEntity, LookupLimit, Country)]
      && r.cover == FirstCover(Discography(lookup(id.value)), matches)
  {
    var first := ArtistSearch(cleanArtist, SearchEntity, SearchLimit, Country);
    if id.None? || id.value == 0 then
      CoverSearch([first], None)
    else
      var second := DiscographyLookup(id.value, LookupEntity, LookupLimit, Country);
      CoverSearch([first, second], FirstCover(Discography(lookup(id.value)), matches))
  }

  /** `findITunesCover(artist, album)`, with the two endpoints given as the
      replies they produce. */
  function FindITunesCover(artist: string, album: string,
                           search: string -> Fetched<ArtistHit>,
                           lookup: int -> Fetched<AlbumHit>): (r: CoverSearch)
    ensures 1 <= |r.requests| <= 2
    ensures r.cover.Some? ==> |r.requests| == 2
  {
    var cleanArtist := CleanInput(artist);
    var target := Normalize(CleanInput(album));
    CoverSteps(cleanArtist, GetArtistId(cleanArtist, search(cleanArtist)), MatchesTarget(target), lookup)
  }

  /** The artist search always goes out first; the discography lookup
      follows exactly when a (non-zero) artist id was found. */
  lemma FindITunesCoverRequests(artist: string, album: string,
                                search: string -> Fetched<ArtistHit>,
                                lookup: int -> Fetched<AlbumHit>)
    ensures var r := FindITunesCover(artist, album, search, lookup);
      var cleanArtist := CleanInput(artist);
      var id := GetArtistId(cleanArtist, search(cleanArtist));
      && r.requests[0] == ArtistSearch(cleanArtist, SearchEntity, SearchLimit, Country)
      && (|r.requests| == 2 <==> id.Some? && id.value != 0)
      && (id.Some? && id.value != 0 ==>
            r.requests[1] == DiscographyLookup(id.value, LookupEntity, LookupLimit, Country))
  {
    var cleanArtist := CleanInput(artist);
    var id := GetArtistId(cleanArtist, search(cleanArtist));
    var r := CoverSteps(cleanArtist, id, MatchesTarget(Normalize(CleanInput(album))), lookup);
    assert FindITunesCover(artist, album, search, lookup) == r;
    if id.Some? && id.value != 0 {
      assert r.requests[1..][0] == r.requests[1];
    }
  }

  /** A cover is found exactly when the artist was identified and one of its
      albums matches the title; it is the large artwork of the first such
      album. */
  lemma FindITunesCoverResult(artist: string, album: string,
                              search: string -> Fetched<ArtistHit>,
                              lookup: int -> Fetched<AlbumHit>)
    ensures var r := FindITunesCover(artist, album, search, lookup);
      var cleanArtist := CleanInput(artist);
      var id := GetArtistId(cleanArtist, search(cleanArtist));
      var matches := MatchesTarget(Normalize(CleanInput(album)));
      && (r.cover.Some? <==>
            id.Some? && id.value != 0 &&
            exists i :: 0 <= i < |Discography(lookup(id.value))| && matches(Discography(lookup(id.value))[i]))
      && (id.Some? && id.value != 0 ==> forall i :: Seqs.FirstWith(Discography(lookup(id.value)), matches, i) ==>
            r.cover == Some(LargeArtwork(Discography(lookup(id.value))[i].artworkUrl100)))
  {
    var cleanArtist := CleanInput(artist);
    var id := GetArtistId(cleanArtist, search(cleanArtist));
    var matches := MatchesTarget(Normalize(CleanInput(album)));
    var r := CoverSteps(cleanArtist, id, matches, lookup);
    assert FindITunesCover(artist, album, search, lookup) == r;
  }

  /** A title that normalizes to nothing (say one that is all parenthesised)
      is included in every title, so the first album of the discography is
      taken, whatever its name. */
  lemma EmptyTitleTakesFirstAlbum(target: string, albums: seq<AlbumHit>)
    requires target == [] && albums != []
    ensures FirstCover(albums, MatchesTarget(target)) == Some(LargeArtwork(albums[0].artworkUrl100))
  {
    ContainsEmpty(Normalize(albums[0].collectionName.GetOr("")));
    assert MatchesTarget(target)(albums[0]);
    assert Seqs.FirstWith(albums, MatchesTarget(target), 0);
  }
}
