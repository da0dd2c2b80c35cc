/** The music catalogue of `MusicGroupImpl`: a map from album name to year, a
    set of songs, one validated mutator and a handful of stream queries.

    The Java object is mutable; here its state is an immutable `Group` value and
    each mutator returns the next state.  The queries iterate the song set (or
    the album key set) in an order Dafny leaves unspecified, just as a `HashSet`
    stream does, so their contracts promise only what holds for every order. */
module MusicGroup {
  import opened Wrappers
  import StringOrder

  /** A song; datatype equality is `Song.equals`: same name, album and duration. */
  datatype Song = Song(name: string, album: Option<string>, duration: real)

  /** The state of one `MusicGroupImpl`: `albums` and `songs`. */
  datatype Group = Group(albums: map<string, int>, songs: set<Song>)

  /** What `addSong` throws: `IllegalArgumentException("invalid album name")`. */
  datatype Error = InvalidAlbumName

  /** A freshly constructed catalogue. */
  const Empty: Group := Group(map[], {})

  /** Every song that names an album names a registered one. */
  ghost predicate Valid(g: Group) {
    forall s :: s in g.songs && s.album.Some? ==> s.album.value in g.albums
  }

  // ---------------------------------------------------------------------------
  // Mutators
  // ---------------------------------------------------------------------------

  /** `addAlbum`: records `year` for `albumName`, replacing an earlier year. */
  function AddAlbum(g: Group, albumName: string, year: int): (r: Group)
    ensures albumName in r.albums && r.albums[albumName] == year
    ensures r.albums.Keys == g.albums.Keys + {albumName}
    ensures forall a :: a in g.albums && a != albumName ==> r.albums[a] == g.albums[a]
    ensures r.songs == g.songs
    ensures Valid(g) ==> Valid(r)
  {
    g.(albums := g.albums[albumName := year])
  }

  /** `addSong`: rejects a song that names an unregistered album and otherwise
      adds it to the set. */
  function AddSong(g: Group, songName: string, albumName: Option<string>, duration: real): (r: Result<Group, Error>)
    ensures r.Failure? <==> albumName.Some? && albumName.value !in g.albums
    ensures r.Success? ==> r.value.albums == g.albums
    ensures r.Success? ==> forall s :: s in r.value.songs <==> s in g.songs || s == Song(songName, albumName, duration)
    ensures r.Success? && Valid(g) ==> Valid(r.value)
  {
    if albumName.Some? && albumName.value !in g.albums then
      Failure(InvalidAlbumName)
    else
      Success(g.(songs := g.songs + {Song(songName, albumName, duration)}))
  }

  /** Adding a song equal to one already present changes nothing. */
  lemma AddExistingSongUnchanged(g: Group, s: Song)
    requires s in g.songs && Valid(g)
    ensures AddSong(g, s.name, s.album, s.duration) == Success(g)
  {
    assert g.songs + {s} == g.songs;
  }

  /** One call of a mutator. */
  datatype Call =
    | AddAlbumCall(albumName: string, year: int)
    | AddSongCall(songName: string, songAlbum: Option<string>, duration: real)

  /** The state after `call`; a rejected `addSong` throws before touching it. */
  function Apply(g: Group, call: Call): Group {
    match call
    case AddAlbumCall(a, y) => AddAlbum(g, a, y)
    case AddSongCall(n, a, d) =>
      match AddSong(g, n, a, d)
      case Success(g') => g'
      case Failure(_) => g
  }

  /** The state after the calls in order. */
  function Replay(g: Group, calls: seq<Call>): Group
    decreases |calls|
  {
    if |calls| == 0 then g else Replay(Apply(g, calls[0]), calls[1..])
  }

  /** Every sequence of mutator calls keeps the catalogue valid and never
      removes an album or a song. */
  lemma {:induction false} ReplayPreservesValid(g: Group, calls: seq<Call>)
    requires Valid(g)
    ensures Valid(Replay(g, calls))
    ensures g.albums.Keys <= Replay(g, calls).albums.Keys
    ensures g.songs <= Replay(g, calls).songs
    decreases |calls|
  {
    if |calls| > 0 {
      var g' := Apply(g, calls[0]);
      assert Valid(g') && g.albums.Keys <= g'.albums.Keys && g.songs <= g'.songs;
      ReplayPreservesValid(g', calls[1..]);
    }
  }

  /** Every state a client can reach from a new catalogue is valid. */
  lemma ReachableIsValid(calls: seq<Call>)
    ensures Valid(Replay(Empty, calls))
  {
    ReplayPreservesValid(Empty, calls);
  }

  // ---------------------------------------------------------------------------
  // Reference definitions for the queries
  // ---------------------------------------------------------------------------

  /** The songs whose album is `album` (`None` for songs outside any album). */
  function SongsOn(songs: set<Song>, album: Option<string>): set<Song> {
    set s | s in songs && s.album == album
  }

  /** The songs called `name`. */
  function SongsNamed(songs: set<Song>, name: string): set<Song> {
    set s | s in songs && s.name == name
  }

  /** The exact sum of the durations of `songs`. */
  ghost function TotalDuration(songs: set<Song>): real
    decreases songs
  {
    if songs == {} then 0.0
    else
      var s :| s in songs;
      s.duration + TotalDuration(songs - {s})
  }

  /** The total does not depend on which song is taken first. */
  lemma {:induction false} TotalDurationRemove(songs: set<Song>, s: Song)
    requires s in songs
    ensures TotalDuration(songs) == s.duration + TotalDuration(songs - {s})
    decreases songs
  {
    var t :| t in songs && TotalDuration(songs) == t.duration + TotalDuration(songs - {t});
    if t != s {
      TotalDurationRemove(songs - {t}, s);
      TotalDurationRemove(songs - {s}, t);
      assert songs - {t} - {s} == songs - {s} - {t};
    }
  }

  lemma TotalDurationAdd(songs: set<Song>, s: Song)
    requires s !in songs
    ensures TotalDuration(songs + {s}) == TotalDuration(songs) + s.duration
  {
    TotalDurationRemove(songs + {s}, s);
    assert songs + {s} - {s} == songs;
  }

  /** The summed duration of the songs of album `a`. */
  ghost function AlbumDuration(songs: set<Song>, a: string): real {
    TotalDuration(SongsOn(songs, Some(a)))
  }

  /** Some song belongs to album `a`. */
  predicate HasSongs(songs: set<Song>, a: string) {
    SongsOn(songs, Some(a)) != {}
  }

  /** `s` is at least as long as every song of `songs`. */
  ghost predicate IsLongest(s: Song, songs: set<Song>) {
    s in songs && forall t :: t in songs ==> t.duration <= s.duration
  }

  /** No element of `r` occurs twice. */
  predicate Distinct<T(==)>(r: seq<T>) {
    forall i, j :: 0 <= i < j < |r| ==> r[i] != r[j]
  }

  // ---------------------------------------------------------------------------
  // Queries
  // ---------------------------------------------------------------------------

  /** The elements of `s` that satisfy `keep`, each once, in some order. */
  method Filter<T(==)>(s: set<T>, keep: T -> bool) returns (r: seq<T>)
    ensures Distinct(r)
    ensures forall x :: x in r <==> x in s && keep(x)
  {
    r := [];
    var rest := s;
    while rest != {}
      invariant rest <= s
      invariant Distinct(r)
      invariant forall x :: x in r <==> x in s && x !in rest && keep(x)
      decreases |rest|
    {
      var x :| x in rest;
      if keep(x) {
        r := r + [x];
      }
      rest := rest - {x};
    }
  }

  /** `albumNames`: every registered album, once each. */
  method AlbumNames(g: Group) returns (r: seq<string>)
    ensures Distinct(r)
    ensures forall a :: a in r <==> a in g.albums
  {
    r := Filter(g.albums.Keys, _ => true);
  }

  /** `albumInYear`: the albums whose recorded year is `year`, once each. */
  method AlbumInYear(g: Group, year: int) returns (r: seq<string>)
    ensures Distinct(r)
    ensures forall a :: a in r <==> a in g.albums && g.albums[a] == year
  {
    r := Filter(g.albums.Keys, a => a in g.albums && g.albums[a] == year);
  }

  /** `orderedSongNames`: the names of all songs, sorted, one entry per song. */
  method OrderedSongNames(g: Group) returns (r: seq<string>)
    ensures StringOrder.Sorted(r)
    ensures forall n :: multiset(r)[n] == |SongsNamed(g.songs, n)|
    ensures |r| == |g.songs|
  {
    var names: seq<string> := [];
    var rest := g.songs;
    ghost var seen: set<Song> := {};
    while rest != {}
      invariant rest + seen == g.songs && rest !! seen
      invariant |names| == |seen|
      invariant forall n :: multiset(names)[n] == |SongsNamed(seen, n)|
      decreases |rest|
    {
      var s :| s in rest;
      forall n
        ensures multiset(names + [s.name])[n] == |SongsNamed(seen + {s}, n)|
      {
        if n == s.name {
          assert SongsNamed(seen + {s}, n) == SongsNamed(seen, n) + {s};
        } else {
          assert SongsNamed(seen + {s}, n) == SongsNamed(seen, n);
        }
      }
      names := names + [s.name];
      rest := rest - {s};
      seen := seen + {s};
    }
    r := StringOrder.Sort(names);
    assert |r| == |multiset(r)| == |multiset(names)| == |names|;
  }

  /** The filter-and-aggregate of `getStreamSongsByAlbum`: the number of songs
      on `album` and their summed duration. */
  method Tally(songs: set<Song>, album: Option<string>) returns (count: nat, total: real)
    ensures count == |SongsOn(songs, album)|
    ensures total == TotalDuration(SongsOn(songs, album))
  {
    count, total := 0, 0.0;
    var rest := songs;
    ghost var seen: set<Song> := {};
    while rest != {}
      invariant rest + seen == songs && rest !! seen
      invariant count == |SongsOn(seen, album)|
      invariant total == TotalDuration(SongsOn(seen, album))
      decreases |rest|
    {
      var s :| s in rest;
      if s.album == album {
        assert SongsOn(seen + {s}, album) == SongsOn(seen, album) + {s};
        TotalDurationAdd(SongsOn(seen, album), s);
        count, total := count + 1, total + s.duration;
      } else {
        assert SongsOn(seen + {s}, album) == SongsOn(seen, album);
      }
      rest := rest - {s};
      seen := seen + {s};
    }
  }

  /** `countSongs`: how many songs belong to album `albumName`. */
  method CountSongs(g: Group, albumName: string) returns (n: nat)
    ensures n == |SongsOn(g.songs, Some(albumName))|
  {
    var total;
    n, total := Tally(g.songs, Some(albumName));
  }

  /** `countSongsInNoAlbum`: how many songs belong to no album. */
  method CountSongsInNoAlbum(g: Group) returns (n: nat)
    ensures n == |SongsOn(g.songs, None)|
  {
    var total;
    n, total := Tally(g.songs, None);
  }

  /** The songs of `countSongs(a)` added up over the albums `names`. */
  function AlbumCounts(songs: set<Song>, names: seq<string>): nat
    decreases |names|
  {
    if |names| == 0 then 0 else |SongsOn(songs, Some(names[0]))| + AlbumCounts(songs, names[1..])
  }

  /** The songs that belong to one of the albums `names`. */
  function SongsOnAny(songs: set<Song>, names: seq<string>): set<Song> {
    set s | s in songs && s.album.Some? && s.album.value in names
  }

  /** Counting album by album counts each song of those albums exactly once. */
  lemma {:induction false} AlbumCountsCover(songs: set<Song>, names: seq<string>)
    requires Distinct(names)
    ensures AlbumCounts(songs, names) == |SongsOnAny(songs, names)|
    decreases |names|
  {
    if |names| == 0 {
      assert SongsOnAny(songs, names) == {};
    } else {
      var tail := names[1..];
      AlbumCountsCover(songs, tail);
      assert SongsOnAny(songs, names) == SongsOn(songs, Some(names[0])) + SongsOnAny(songs, tail);
      assert SongsOn(songs, Some(names[0])) !! SongsOnAny(songs, tail) by {
        forall s | s in SongsOnAny(songs, tail)
          ensures s.album != Some(names[0])
        {
          var k :| 0 <= k < |tail| && tail[k] == s.album.value;
          assert names[k + 1] == tail[k];
        }
      }
    }
  }

  /** `countSongsInNoAlbum` and `countSongs` over a list of albums that
      includes every album some song names together count every song once. */
  lemma CountsPartition(songs: set<Song>, names: seq<string>)
    requires Distinct(names)
    requires forall s :: s in songs && s.album.Some? ==> s.album.value in names
    ensures AlbumCounts(songs, names) + |SongsOn(songs, None)| == |songs|
  {
    AlbumCountsCover(songs, names);
    assert songs == SongsOnAny(songs, names) + SongsOn(songs, None);
    assert SongsOnAny(songs, names) !! SongsOn(songs, None);
  }

  /** In a valid catalogue the registered albums (as `albumNames` lists them)
      and the songs without an album account for every song. */
  lemma RegisteredCountsPartition(g: Group, names: seq<string>)
    requires Valid(g)
    requires Distinct(names) && forall a :: a in names <==> a in g.albums
    ensures AlbumCounts(g.songs, names) + |SongsOn(g.songs, None)| == |g.songs|
  {
    CountsPartition(g.songs, names);
  }

  /** `averageDurationOfSongs`: empty for an album without songs, otherwise the
      mean duration of its songs. */
  method AverageDurationOfSongs(g: Group, albumName: string) returns (r: Option<real>)
    ensures r.None? <==> !HasSongs(g.songs, albumName)
    ensures r.Some? ==> r.value * |SongsOn(g.songs, Some(albumName))| as real == AlbumDuration(g.songs, albumName)
  {
    var count, total := Tally(g.songs, Some(albumName));
    if count == 0 {
      r := None;
    } else {
      r := Some(total / count as real);
    }
  }

  /** `longestSong`: empty iff there are no songs, otherwise the name of a song
      no other song outlasts. */
  method LongestSong(g: Group) returns (r: Option<string>)
    ensures r.None? <==> g.songs == {}
    ensures r.Some? ==> exists s :: IsLongest(s, g.songs) && s.name == r.value
  {
    var best: Option<Song> := None;
    var rest := g.songs;
    while rest != {}
      invariant rest <= g.songs
      invariant best.None? <==> rest == g.songs
      invariant best.Some? ==> best.value in g.songs
      invariant best.Some? ==> forall t :: t in g.songs && t !in rest ==> t.duration <= best.value.duration
      decreases |rest|
    {
      var s :| s in rest;
      if best.None? || best.value.duration < s.duration {
        best := Some(s);
      }
      rest := rest - {s};
    }
    if best.Some? {
      assert IsLongest(best.value, g.songs);
      r := Some(best.value.name);
    } else {
      r := None;
    }
  }

  /** The `groupingBy(album, summingDouble(duration))` of `longestAlbum`: one
      entry per album that has songs, holding their summed duration. */
  method DurationByAlbum(songs: set<Song>) returns (totals: map<string, real>)
    ensures forall a :: a in totals <==> HasSongs(songs, a)
    ensures forall a :: a in totals ==> totals[a] == AlbumDuration(songs, a)
  {
    totals := map[];
    var rest := songs;
    ghost var seen: set<Song> := {};
    while rest != {}
      invariant rest + seen == songs && rest !! seen
      invariant forall a :: a in totals <==> HasSongs(seen, a)
      invariant forall a :: a in totals ==> totals[a] == AlbumDuration(seen, a)
      decreases |rest|
    {
      var s :| s in rest;
      totals := AddToTotals(totals, seen, s);
      rest := rest - {s};
      seen := seen + {s};
    }
  }

  /** One step of the grouping: folds song `s` into the totals of `seen`. */
  function AddToTotals(totals: map<string, real>, ghost seen: set<Song>, s: Song): (r: map<string, real>)
    requires s !in seen
    requires forall a :: a in totals <==> HasSongs(seen, a)
    requires forall a :: a in totals ==> totals[a] == AlbumDuration(seen, a)
    ensures forall a :: a in r <==> HasSongs(seen + {s}, a)
    ensures forall a :: a in r ==> r[a] == AlbumDuration(seen + {s}, a)
  {
    AddToTotalsOthers(seen, s);
    if s.album.None? then totals
    else
      var b := s.album.value;
      AddToTotalsOwn(seen, s);
      var before := if b in totals then totals[b] else 0.0;
      totals[b := before + s.duration]
  }

  /** Albums other than the song's own keep their songs and totals. */
  lemma AddToTotalsOthers(seen: set<Song>, s: Song)
    ensures forall a :: Some(a) != s.album ==>
      (HasSongs(seen + {s}, a) <==> HasSongs(seen, a)) && AlbumDuration(seen + {s}, a) == AlbumDuration(seen, a)
  {
    forall a | Some(a) != s.album
      ensures SongsOn(seen + {s}, Some(a)) == SongsOn(seen, Some(a))
    {
    }
  }

  /** The song's own album gains the song and its duration. */
  lemma AddToTotalsOwn(seen: set<Song>, s: Song)
    requires s !in seen && s.album.Some?
    ensures HasSongs(seen + {s}, s.album.value)
    ensures AlbumDuration(seen + {s}, s.album.value) == AlbumDuration(seen, s.album.value) + s.duration
    ensures !HasSongs(seen, s.album.value) ==> AlbumDuration(seen, s.album.value) == 0.0
  {
    assert SongsOn(seen + {s}, s.album) == SongsOn(seen, s.album) + {s};
    TotalDurationAdd(SongsOn(seen, s.album), s);
  }

  /** `longestAlbum`: empty iff no song has an album, otherwise an album whose
      songs last at least as long in total as those of any other album. */
  method LongestAlbum(g: Group) returns (r: Option<string>)
    ensures r.None? <==> forall s :: s in g.songs ==> s.album.None?
    ensures r.Some? ==> HasSongs(g.songs, r.value)
    ensures r.Some? ==> forall a :: HasSongs(g.songs, a) ==> AlbumDuration(g.songs, a) <= AlbumDuration(g.songs, r.value)
  {
    var totals := DurationByAlbum(g.songs);
    forall s | s in g.songs && s.album.Some?
      ensures HasSongs(g.songs, s.album.value)
    {
      assert s in SongsOn(g.songs, s.album);
    }
    r := None;
    var rest := totals.Keys;
    while rest != {}
      invariant rest <= totals.Keys
      invariant r.None? <==> rest == totals.Keys
      invariant r.Some? ==> r.value in totals
      invariant r.Some? ==> forall a :: a in totals && a !in rest ==> totals[a] <= totals[r.value]
      decreases |rest|
    {
      var a :| a in rest;
      if r.None? || totals[r.value] < totals[a] {
        r := Some(a);
      }
      rest := rest - {a};
    }
    if r.Some? {
      var s :| s in SongsOn(g.songs, Some(r.value));
      assert s in g.songs && s.album.Some?;
    }
  }
}
