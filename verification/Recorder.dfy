/** The song recorder of src/recorder.c: a ring of the latest frames, and tracks that
    overlap because each begins with the ring's frames and goes on for a while after
    its song has ended. Files are the frames written to them. */
module Recorder {
  import opened Basics
  import Arith

  type Frame = seq<bv8>

  const TEXT := 255

  // strncpy into a zeroed field of 256 characters.
  function Clip(s: string): string { if |s| <= TEXT then s else s[..TEXT] }

  function Min(a: nat, b: nat): nat { if a <= b then a else b }

  // A file that has been closed, with its three packet counters (finalize_track).
  datatype Finished = Finished(title: string, artist: string, file: seq<Frame>, preroll: nat, body: nat, postroll: nat,
                               kept: bool)

  // What a recorder is set up with: frames of pre-roll, whether there is post-roll,
  // its frames, and the least number of packets of a song.
  datatype Setup = Setup(capacity: nat, postroll: bool, postrollFrames: nat, minSongPackets: nat, recordInitial: bool)

  // Frames of post-roll a track gets: one at least, even when the time rounds to none.
  function PostrollLength(s: Setup): nat {
    if !s.postroll then 0 else if s.postrollFrames == 0 then 1 else s.postrollFrames
  }

  // Song k starts when starts[k] frames have been heard.
  ghost predicate Ordered(starts: seq<nat>, heard: nat) {
    && (forall k :: 0 <= k < |starts| ==> starts[k] <= heard)
    && (forall j, k :: 0 <= j < k < |starts| ==> starts[j] <= starts[k])
  }

  // The frames of song k's file: as many before its start as the ring held, then
  // all from there on, body and post-roll.
  ghost predicate IsRun(file: seq<Frame>, stream: seq<Frame>, start: nat, preroll: nat, rest: nat, capacity: nat) {
    && preroll == Min(start, capacity)
    && start + rest <= |stream|
    && file == stream[start - preroll..start + rest]
  }

  // A song is filed under title and artist when both are known.
  predicate Proper(title: string, artist: string) { title != "" && artist != "" && title != "Unknown" }

  class Track {
    const title: string
    const artist: string
    var album: string
    var file: seq<Frame>
    var open: bool
    var packetsPreroll: nat
    var packetsBody: nat
    var packetsPostroll: nat
    var isPostroll: bool
    var remaining: nat
    var next: Track?
    ghost const id: nat

    constructor (title: string, artist: string, album: string, ghost id: nat)
      ensures this.title == Clip(title) && this.artist == Clip(artist) && this.album == Clip(album) && this.id == id
      ensures open && !isPostroll && file == [] && packetsPreroll == packetsBody == packetsPostroll == 0
      ensures next == null
    {
      this.title, this.artist, this.album := Clip(title), Clip(artist), Clip(album);
      this.id := id;
      file, open, isPostroll, remaining, next := [], true, false, 0, null;
      packetsPreroll, packetsBody, packetsPostroll := 0, 0, 0;
    }

    // An open track has written a gap-free run of the stream up to now, and its
    // counters say how the run divides into pre-roll, song and post-roll.
    ghost predicate Follows(stream: seq<Frame>, starts: seq<nat>, s: Setup)
      reads `file, `open, `packetsPreroll, `packetsBody, `packetsPostroll, `isPostroll, `remaining
    {
      id < |starts| && Ordered(starts, |stream|) && (open ==>
        && IsRun(file, stream, starts[id], packetsPreroll, |stream| - starts[id], s.capacity)
        && if isPostroll then
             && id + 1 < |starts| && s.postroll
             && packetsBody == starts[id + 1] - starts[id]
             && packetsPostroll == |stream| - starts[id + 1] < PostrollLength(s)
             && packetsPostroll + remaining == s.postrollFrames
           else
             && id + 1 == |starts|
             && packetsBody == |stream| - starts[id] && packetsPostroll == 0)
    }

    // An open track whose post-roll is over.
    ghost predicate Ended(stream: seq<Frame>, starts: seq<nat>, s: Setup)
      reads `file, `open, `packetsPreroll, `packetsBody, `packetsPostroll
    {
      open && IsDone(file, packetsPreroll, packetsBody, packetsPostroll, id, stream, starts, s)
    }

    /** finalize_track: the file is closed, and kept if it is long enough and named. */
    method Finalize(minSongPackets: nat) returns (f: Finished)
      requires open
      modifies this`open
      ensures !open
      ensures f == Finished(title, artist, file, packetsPreroll, packetsBody, packetsPostroll, f.kept)
      ensures f.kept <==> packetsPreroll + packetsBody + packetsPostroll >= minSongPackets && Proper(title, artist)
    {
      open := false;
      var total := packetsPreroll + packetsBody + packetsPostroll;
      var named := title != "" && artist != "" && title != "Unknown";
      f := Finished(title, artist, file, packetsPreroll, packetsBody, packetsPostroll, total >= minSongPackets && named);
    }

    /** The frame goes into the file; the track is done when its post-roll is. */
    method Feed(frame: Frame, ghost stream: seq<Frame>, ghost starts: seq<nat>, ghost s: Setup) returns (done: bool)
      requires open && Follows(stream, starts, s)
      modifies this`file, this`packetsBody, this`packetsPostroll, this`remaining
      ensures !done ==> Follows(stream + [frame], starts, s)
      ensures done ==> isPostroll && Ended(stream + [frame], starts, s)
    {
      ghost var later := stream + [frame];
      assert later[starts[id] - packetsPreroll..] == stream[starts[id] - packetsPreroll..] + [frame];
      file := file + [frame];
      if isPostroll {
        packetsPostroll := packetsPostroll + 1;
        if remaining > 0 { remaining := remaining - 1; }
        return remaining == 0;
      } else {
        packetsBody := packetsBody + 1;
        return false;
      }
    }
  }

  // The finished file of song id: pre-roll, the whole song up to the next one's
  // start, and all of its post-roll.
  ghost predicate IsDone(file: seq<Frame>, preroll: nat, body: nat, postroll: nat, id: nat, stream: seq<Frame>,
                         starts: seq<nat>, s: Setup) {
    && id + 1 < |starts| && Ordered(starts, |stream|)
    && IsRun(file, stream, starts[id], preroll, body + postroll, s.capacity)
    && body == starts[id + 1] - starts[id]
    && postroll == PostrollLength(s)
  }

  // The track was opened for the song of its tag.
  ghost predicate Tagged(t: Track, tags: seq<(string, string)>) {
    t.id < |tags| && t.title == Clip(tags[t.id].0) && t.artist == Clip(tags[t.id].1)
  }

  // The finished file is of the song of that tag, and was kept if it is long enough
  // and has proper names.
  ghost predicate Labelled(f: Finished, id: nat, tags: seq<(string, string)>, s: Setup) {
    && id < |tags| && f.title == Clip(tags[id].0) && f.artist == Clip(tags[id].1)
    && (f.kept <==> f.preroll + f.body + f.postroll >= s.minSongPackets && Proper(f.title, f.artist))
  }

  // ---------- the pre-roll ring ----------

  // The ring holds the latest frames of the stream, the oldest of them at first.
  ghost predicate RingHolds(ring: seq<Frame>, head: nat, count: nat, stream: seq<Frame>) {
    && count == Min(|stream|, |ring|)
    && (|ring| > 0 ==> head == |stream| % |ring|)
    && forall n :: |stream| - count <= n < |stream| ==> ring[n % |ring|] == stream[n]
  }

  // Frames that share a slot are a whole ring apart.
  lemma SharedSlot(m: nat, n: nat, c: nat)
    requires c > 0 && m < n && m % c == n % c
    ensures n - m >= c
  {
    var q := n / c - m / c;
    assert n - m == c * q;
    assert q >= 1;
    assert c * q >= c;
  }

  lemma NextHead(n: nat, c: nat)
    requires c > 0
    ensures (n % c + 1) % c == (n + 1) % c
  {
    Arith.DivUnique(n + 1, c, (n + 1) / c, (n + 1) % c);
    var q, r := n / c, n % c;
    assert n == c * q + r;
    if r + 1 == c {
      assert n + 1 == c * (q + 1);
      Arith.DivUnique(n + 1, c, q + 1, 0);
      Arith.DivUnique(c, c, 1, 0);
    } else {
      Arith.DivUnique(n + 1, c, q, r + 1);
      Arith.DivUnique(r + 1, c, 0, r + 1);
    }
  }

  // The ring after one more frame.
  lemma RingTurns(ring: seq<Frame>, head: nat, count: nat, stream: seq<Frame>, frame: Frame)
    requires RingHolds(ring, head, count, stream) && |ring| > 0
    ensures head < |ring|
    ensures RingHolds(ring[head := frame], (head + 1) % |ring|, if count < |ring| then count + 1 else count,
                      stream + [frame])
  {
    var later, after, c := stream + [frame], ring[head := frame], |ring|;
    var kept := if count < c then count + 1 else count;
    NextHead(|stream|, c);
    forall n | |later| - kept <= n < |later| ensures after[n % c] == later[n] {
      if n < |stream| && n % c == |stream| % c { SharedSlot(n, |stream|, c); }
    }
  }

  // Where frame i of the ring lies.
  lemma RingSlot(heard: nat, count: nat, c: nat, i: nat)
    requires c > 0 && count == Min(heard, c) && i < count
    ensures ((if count < c then 0 else heard % c) + i) % c == (heard - count + i) % c
  {
    if count == c {
      var q, r := heard / c, heard % c;
      assert heard == c * q + r;
      assert heard - c == c * (q - 1) + r;
      SameRemainder(r + i, c, q - 1);
      assert heard - c + i == c * (q - 1) + (r + i);
    }
  }

  lemma {:induction false} SameRemainder(a: nat, c: nat, q: int)
    requires c > 0 && c * q + a >= 0
    ensures (c * q + a) % c == a % c
  {
    var p := a / c;
    assert a == c * p + a % c;
    assert c * q + a == c * (q + p) + a % c;
    Arith.DivUnique(c * q + a, c, q + p, a % c);
  }

  // ---------- the list of tracks ----------

  // The newest song's track leads the list; the other open ones are in post-roll.
  // The first i tracks have heard all of later, the others all of stream.
  ghost predicate Hearing(list: seq<Track>, i: nat, later: seq<Frame>, stream: seq<Frame>, starts: seq<nat>, s: Setup)
    reads list`file, list`open, list`packetsPreroll, list`packetsBody, list`packetsPostroll, list`isPostroll,
      list`remaining
  {
    && i <= |list| && Leads(list, starts)
    && (forall j :: 0 <= j < i ==> list[j].Follows(later, starts, s))
    && (forall j :: i <= j < |list| ==> list[j].Follows(stream, starts, s))
  }

  ghost predicate Leads(list: seq<Track>, starts: seq<nat>)
    reads list`open, list`isPostroll
  {
    && (|list| > 0 <==> |starts| > 0)
    && (|list| > 0 ==> list[0].open && !list[0].isPostroll)
    && (forall i :: 0 < i < |list| && list[i].open ==> list[i].isPostroll)
  }

  // The same, but track i has heard the frame and is done.
  ghost predicate Leaving(list: seq<Track>, i: nat, later: seq<Frame>, stream: seq<Frame>, starts: seq<nat>, s: Setup)
    reads list`file, list`open, list`packetsPreroll, list`packetsBody, list`packetsPostroll, list`isPostroll,
      list`remaining
  {
    && 0 < i < |list| && Leads(list, starts)
    && (forall j :: 0 <= j < i ==> list[j].Follows(later, starts, s))
    && (forall j :: i < j < |list| ==> list[j].Follows(stream, starts, s))
    && list[i].Ended(later, starts, s)
  }

  lemma LeavingLeft(list: seq<Track>, i: nat, later: seq<Frame>, stream: seq<Frame>, starts: seq<nat>, s: Setup)
    requires Leaving(list, i, later, stream, starts, s)
    ensures Hearing(list[..i] + list[i + 1..], i, later, stream, starts, s)
  {
  }

  lemma Without(list: seq<Track>, i: nat)
    requires i < |list| && forall j, k :: 0 <= j < k < |list| ==> list[j] != list[k]
    ensures list[i] !in list[..i] + list[i + 1..]
  {
  }

  // A new song does not matter to tracks that are in post-roll already.
  lemma RestFollow(list: seq<Track>, stream: seq<Frame>, starts: seq<nat>, more: seq<nat>, s: Setup)
    requires Hearing(list, 0, stream, stream, starts, s) && starts <= more && Ordered(more, |stream|)
    ensures Ending(list, 1, stream, more, s)
  {
  }

  // The tracks from i on are in post-roll, or closed.
  ghost predicate Ending(list: seq<Track>, i: nat, stream: seq<Frame>, starts: seq<nat>, s: Setup)
    reads list`file, list`open, list`packetsPreroll, list`packetsBody, list`packetsPostroll, list`isPostroll,
      list`remaining
  {
    forall j :: i <= j < |list| ==> list[j].Follows(stream, starts, s) && (list[j].open ==> list[j].isPostroll)
  }

  // A new track goes before them.
  lemma NewLeads(t: Track, list: seq<Track>, stream: seq<Frame>, starts: seq<nat>, s: Setup)
    requires Ending(list, 0, stream, starts, s) && |starts| > 0
    requires t.open && !t.isPostroll && t.Follows(stream, starts, s)
    ensures Hearing([t] + list, 0, stream, stream, starts, s)
  {
  }

  // A closed track hears nothing.
  lemma ClosedHears(list: seq<Track>, i: nat, later: seq<Frame>, stream: seq<Frame>, starts: seq<nat>, s: Setup)
    requires Hearing(list, i, later, stream, starts, s) && i < |list| && !list[i].open && |stream| <= |later|
    ensures Hearing(list, i + 1, later, stream, starts, s)
  {
  }

  // A frame has been heard by all.
  lemma AllHear(list: seq<Track>, later: seq<Frame>, stream: seq<Frame>, starts: seq<nat>, s: Setup)
    requires Hearing(list, |list|, later, stream, starts, s)
    ensures Hearing(list, 0, later, later, starts, s)
  {
  }

  // ---------- the books ----------

  // The songs that have a file, finished or open in the list. Methods see what
  // the lemmas below say of it, and do not look inside (SEALS).
  ghost function Booked(seals: seq<bool>, songs: seq<nat>, list: seq<Track>): multiset<nat>
    reads list`open
    decreases |seals|
  {
    if |seals| > 0 then Booked(seals[1..], songs, list) else multiset(songs) + OpenSongs(list)
  }

  // The songs whose files are open.
  ghost function OpenSongs(list: seq<Track>): multiset<nat>
    reads list`open
  {
    if |list| == 0 then multiset{} else OpenSong(list[0]) + OpenSongs(list[1..])
  }

  ghost function OpenSong(t: Track): multiset<nat>
    reads t`open
  {
    if t.open then multiset{t.id} else multiset{}
  }

  // All n songs, once each.
  ghost function AllSongs(seals: seq<bool>, n: nat): multiset<nat>
    decreases |seals|
  {
    if |seals| > 0 then AllSongs(seals[1..], n) else FirstSongs(n)
  }

  ghost function FirstSongs(n: nat): multiset<nat> {
    if n == 0 then multiset{} else FirstSongs(n - 1) + multiset{n - 1}
  }

  lemma {:induction false} OpenBooked(seals: seq<bool>, songs: seq<nat>, list: seq<Track>)
    ensures Booked(seals, songs, list) == multiset(songs) + OpenSongs(list)
    decreases |seals|
  {
    if |seals| > 0 { OpenBooked(seals[1..], songs, list); }
  }

  lemma {:induction false} OpenAll(seals: seq<bool>, n: nat)
    ensures AllSongs(seals, n) == FirstSongs(n)
    decreases |seals|
  {
    if |seals| > 0 { OpenAll(seals[1..], n); }
  }

  // Of n songs, each has one file.
  ghost predicate Balanced(songs: seq<nat>, list: seq<Track>, n: nat)
    reads list`open
  {
    Booked(SEALS, songs, list) == AllSongs(SEALS, n)
  }

  lemma NoSongs()
    ensures Balanced([], [], 0)
  {
    OpenBooked(SEALS, [], []);
    OpenAll(SEALS, 0);
  }

  lemma {:induction false} EachOnce(n: nat, id: nat)
    ensures FirstSongs(n)[id] == if id < n then 1 else 0
  {
    if n > 0 { EachOnce(n - 1, id); }
  }

  lemma {:induction false} OpenWithout(list: seq<Track>, i: nat)
    requires i < |list|
    ensures OpenSongs(list) == OpenSongs(list[..i] + list[i + 1..]) + OpenSong(list[i])
  {
    var rest := list[..i] + list[i + 1..];
    if i == 0 {
      assert rest == list[1..];
    } else {
      OpenWithout(list[1..], i - 1);
      assert rest[1..] == list[1..][..i - 1] + list[1..][i..];
    }
  }

  // The file of track i, open or not, counts once.
  lemma BookedWithout(songs: seq<nat>, list: seq<Track>, i: nat)
    requires i < |list|
    ensures Booked(SEALS, songs, list) ==
      Booked(SEALS, songs, list[..i] + list[i + 1..]) + OpenSong(list[i])
  {
    OpenWithout(list, i);
    OpenBooked(SEALS, songs, list);
    OpenBooked(SEALS, songs, list[..i] + list[i + 1..]);
  }

  lemma BookedMore(songs: seq<nat>, list: seq<Track>, id: nat)
    ensures Booked(SEALS, songs + [id], list) == Booked(SEALS, songs, list) + multiset{id}
  {
    OpenBooked(SEALS, songs, list);
    OpenBooked(SEALS, songs + [id], list);
  }

  lemma BookedNew(songs: seq<nat>, list: seq<Track>, t: Track)
    requires t.open && Balanced(songs, list, t.id)
    ensures Balanced(songs, [t] + list, t.id + 1)
  {
    OpenBooked(SEALS, songs, list);
    OpenBooked(SEALS, songs, [t] + list);
    OpenAll(SEALS, t.id);
    OpenAll(SEALS, t.id + 1);
    assert ([t] + list)[1..] == list;
  }

  lemma {:induction false} OpenIn(list: seq<Track>, i: nat)
    requires i < |list| && list[i].open
    ensures OpenSongs(list)[list[i].id] > 0
  {
    if i > 0 { OpenIn(list[1..], i - 1); }
  }

  lemma {:induction false} OpenAt(list: seq<Track>, id: nat) returns (i: nat)
    requires OpenSongs(list)[id] > 0
    ensures i < |list| && list[i].open && list[i].id == id
  {
    if list[0].open && list[0].id == id {
      i := 0;
    } else {
      i := OpenAt(list[1..], id);
      i := i + 1;
    }
  }

  // The first n tracks are closed.
  ghost predicate Shut(list: seq<Track>, n: nat)
    reads list`open
  {
    n <= |list| && forall k :: 0 <= k < n ==> !list[k].open
  }

  lemma {:induction false} ClosedAll(songs: seq<nat>, list: seq<Track>)
    requires Shut(list, |list|)
    ensures Booked(SEALS, songs, list) == Booked(SEALS, songs, [])
    decreases |list|
  {
    OpenBooked(SEALS, songs, list);
    OpenBooked(SEALS, songs, []);
    if |list| > 0 {
      ClosedAll(songs, list[1..]);
      OpenBooked(SEALS, songs, list[1..]);
    }
  }

  // ---------- the recorder ----------

  class Recorder {
    const setup: Setup
    const ring: array<Frame>
    var head: nat
    var count: nat
    var seen: bool
    var tracks: Track?
    var finished: seq<Finished>
    // All frames heard, where each song started, the tracks in the list, and the
    // songs that the finished files are of.
    ghost var stream: seq<Frame>
    ghost var starts: seq<nat>
    ghost var list: seq<Track>
    ghost var songs: seq<nat>
    // The title and artist with which each song was started.
    ghost var tags: seq<(string, string)>

    ghost predicate Linked()
      reads `list, `tracks, list`next
    {
      && (forall i, j :: 0 <= i < j < |list| ==> list[i] != list[j])
      && tracks == (if |list| == 0 then null else list[0])
      && (forall i :: 0 <= i < |list| ==> list[i].next == NextOf(list, i))
    }

    ghost predicate Parts()
      reads `stream, `starts, `list, `songs, `tags, `finished, `tracks, `head, `count, ring, list`next, list`file, list`open,
        list`packetsPreroll, list`packetsBody, list`packetsPostroll, list`isPostroll, list`remaining
    {
      && ring.Length == setup.capacity
      && RingHolds(ring[..], head, count, stream)
      && Ordered(starts, |stream|) && |tags| == |starts| && AllTagged()
      && Linked() && Hearing(list, 0, stream, stream, starts, setup)
      && AllDone(stream) && Balanced(songs, list, |starts|)
    }

    ghost predicate AllTagged()
      reads `list, `tags
    {
      forall i :: 0 <= i < |list| ==> Tagged(list[i], tags)
    }

    ghost function Books(): multiset<nat>
      reads `songs, `list, list`open
    {
      Booked(SEALS, songs, list)
    }

    ghost predicate Valid()
      reads `stream, `starts, `list, `songs, `tags, `finished, `tracks, `head, `count, ring, list`next, list`file, list`open,
        list`packetsPreroll, list`packetsBody, list`packetsPostroll, list`isPostroll, list`remaining
    {
      Sealed(SEALS)
    }

    // Methods that only pass the invariant on do not look inside (SEALS).
    ghost predicate Sealed(seals: seq<bool>)
      reads `stream, `starts, `list, `songs, `tags, `finished, `tracks, `head, `count, ring, list`next, list`file, list`open,
        list`packetsPreroll, list`packetsBody, list`packetsPostroll, list`isPostroll, list`remaining
      decreases |seals|
    {
      if |seals| > 0 then Sealed(seals[1..]) else Parts()
    }

    lemma {:induction false} Open(seals: seq<bool>)
      ensures Sealed(seals) == Parts()
      decreases |seals|
    {
      if |seals| > 0 { Open(seals[1..]); }
    }

    constructor (setup: Setup)
      ensures Valid() && this.setup == setup && fresh(ring)
      ensures stream == [] && starts == [] && tags == [] && finished == [] && !seen
    {
      this.setup := setup;
      ring := new Frame[setup.capacity](_ => []);
      head, count, seen, tracks, finished := 0, 0, false, null, [];
      stream, starts, list, songs, tags := [], [], [], [], [];
      new;
      NoSongs();
      Open(SEALS);
    }

    /** get_primary_track: the first track that is not in post-roll. */
    method Primary() returns (t: Track?)
      requires Linked()
      ensures t == null ==> forall i :: 0 <= i < |list| ==> list[i].isPostroll
      ensures t != null ==> exists i :: IsPrimary(i, t)
    {
      t := tracks;
      ghost var i := 0;
      while t != null
        invariant 0 <= i <= |list|
        invariant t == if i < |list| then list[i] else null
        invariant forall j :: 0 <= j < i ==> list[j].isPostroll
        decreases |list| - i
      {
        if !t.isPostroll {
          assert IsPrimary(i, t);
          return;
        }
        t := t.next;
        i := i + 1;
      }
    }

    ghost predicate IsPrimary(i: nat, t: Track)
      reads this, list
    {
      i < |list| && t == list[i] && !t.isPostroll && forall j :: 0 <= j < i ==> list[j].isPostroll
    }

    // Every finished file is a whole one.
    ghost predicate AllDone(later: seq<Frame>)
      reads `songs, `finished, `starts, `tags
    {
      DoneBy(later, starts)
    }

    ghost predicate DoneBy(later: seq<Frame>, more: seq<nat>)
      reads `songs, `finished, `tags
    {
      && |songs| == |finished|
      && forall k :: 0 <= k < |finished| ==> AreDone(finished[k], songs[k], later, more, setup, tags)
    }

    /** The frame goes to one track of the list. */
    method FeedTrack(curr: Track, frame: Frame, ghost i: nat) returns (done: bool)
      requires Linked() && Hearing(list, i, stream + [frame], stream, starts, setup)
      requires i < |list| && curr == list[i] && curr.open
      modifies curr`file, curr`packetsBody, curr`packetsPostroll, curr`remaining
      ensures !done ==> Hearing(list, i + 1, stream + [frame], stream, starts, setup)
      ensures done ==> Leaving(list, i, stream + [frame], stream, starts, setup)
    {
      done := curr.Feed(frame, stream, starts, setup);
    }

    // Finished files are runs of any longer stream, too.
    lemma StillDone(aac: Frame)
      requires AllDone(stream)
      ensures AllDone(stream + [aac])
    {
      forall k | 0 <= k < |finished| ensures AreDone(finished[k], songs[k], stream + [aac], starts, setup, tags) {
        DoneLater(finished[k], songs[k], stream, stream + [aac], starts, starts, setup, tags, tags);
      }
    }

    /** *curr_ptr = track->next */
    method Unlink(prev: Track?, curr: Track, ghost i: nat)
      requires Linked() && i < |list| && curr == list[i]
      requires prev == if i > 0 then list[i - 1] else null
      modifies list`next, this`tracks, this`list
      ensures Linked() && list == old(list[..i] + list[i + 1..])
    {
      if prev == null { tracks := curr.next; } else { prev.next := curr.next; }
      list := list[..i] + list[i + 1..];
    }

    // A track that is done goes off the list.
    method Drop(prev: Track?, curr: Track, ghost i: nat, ghost later: seq<Frame>)
      requires Linked() && Leaving(list, i, later, stream, starts, setup) && curr == list[i] && prev == list[i - 1]
      modifies list`next, this`tracks, this`list
      ensures Linked() && list == old(list[..i] + list[i + 1..]) && curr !in list
      ensures Hearing(list, i, later, stream, starts, setup)
    {
      LeavingLeft(list, i, later, stream, starts, setup);
      TakeOff(prev, curr, i);
    }

    method TakeOff(prev: Track?, curr: Track, ghost i: nat)
      requires Linked() && 0 < i < |list| && curr == list[i] && prev == list[i - 1]
      modifies list`next, this`tracks, this`list
      ensures Linked() && list == old(list[..i] + list[i + 1..]) && curr !in list
    {
      Without(list, i);
      Unlink(prev, curr, i);
    }

    // Its file is closed.
    method Close(t: Track, ghost later: seq<Frame>, ghost i: nat)
      requires t.Ended(later, starts, setup) && AllDone(later) && Tagged(t, tags)
      requires t !in list && Hearing(list, i, later, stream, starts, setup)
      modifies t`open, this`finished, this`songs
      ensures AllDone(later) && old(finished) <= finished
      ensures Hearing(list, i, later, stream, starts, setup)
      ensures songs == old(songs) + [t.id]
    {
      var f := t.Finalize(setup.minSongPackets);
      assert AreDone(f, t.id, later, starts, setup, tags);
      finished := finished + [f];
      songs := songs + [t.id];
    }

    method CloseBooked(t: Track, ghost later: seq<Frame>, ghost i: nat)
      requires t.Ended(later, starts, setup) && AllDone(later) && Tagged(t, tags)
      requires t !in list && Hearing(list, i, later, stream, starts, setup)
      modifies t`open, this`finished, this`songs
      ensures AllDone(later) && old(finished) <= finished && songs == old(songs) + [t.id]
      ensures Hearing(list, i, later, stream, starts, setup)
      ensures Books() == old(Books()) + multiset{t.id}
    {
      BookedMore(songs, list, t.id);
      Close(t, later, i);
    }

    // Off the list, its song has no file in the books.
    method CountOff(prev: Track?, curr: Track, ghost i: nat, ghost later: seq<Frame>)
      requires Linked() && Leaving(list, i, later, stream, starts, setup) && curr == list[i] && prev == list[i - 1]
      modifies list`next, this`tracks, this`list
      ensures Linked() && list == old(list[..i] + list[i + 1..]) && curr !in list
      ensures Hearing(list, i, later, stream, starts, setup)
      ensures old(Books()) == Books() + multiset{curr.id}
    {
      BookedWithout(songs, list, i);
      Drop(prev, curr, i, later);
    }

    method Retire(prev: Track?, curr: Track, ghost i: nat, ghost later: seq<Frame>)
      requires Linked() && Leaving(list, i, later, stream, starts, setup) && curr == list[i] && prev == list[i - 1]
      requires AllDone(later) && Tagged(curr, tags)
      modifies list`next, this`tracks, this`list, curr`open, this`finished, this`songs
      ensures Linked() && list == old(list[..i] + list[i + 1..])
      ensures Hearing(list, i, later, stream, starts, setup)
      ensures AllDone(later) && old(finished) <= finished
      ensures songs == old(songs) + [curr.id] && Books() == old(Books())
    {
      CountOff(prev, curr, i, later);
      CloseBooked(curr, later, i);
    }

    /** One pass of the loop of recorder_on_hdc: a track hears the frame, and is taken
        off the list when its post-roll is over. */
    method FeedOne(prev: Track?, curr: Track, frame: Frame, ghost i: nat) returns (unlinked: bool)
      requires Linked() && Hearing(list, i, stream + [frame], stream, starts, setup) && AllDone(stream + [frame])
      requires i < |list| && curr == list[i] && Tagged(curr, tags)
      requires prev == if i > 0 then list[i - 1] else null
      modifies list, this`tracks, this`list, this`finished, this`songs
      ensures Linked() && AllDone(stream + [frame]) && old(finished) <= finished
      ensures Hearing(list, if unlinked then i else i + 1, stream + [frame], stream, starts, setup)
      ensures list == if unlinked then old(list[..i] + list[i + 1..]) else old(list)
      ensures unlinked ==> i > 0
      ensures songs == old(songs) + (if unlinked then [curr.id] else []) && Books() == old(Books())
    {
      unlinked := false;
      if curr.open {
        unlinked := FeedTrack(curr, frame, i);
        if unlinked {
          Retire(prev, curr, i, stream + [frame]);
        }
      } else {
        ClosedHears(list, i, stream + [frame], stream, starts, setup);
      }
    }

    /** recorder_on_hdc: every open track hears the frame, and the ring takes it in.
        A frame that is not of this programme, is corrupted or could not be remuxed,
        is passed over. */
    method OnHdc(mine: bool, corrupted: bool, aac: Frame)
      requires Valid()
      modifies this, ring, list
      ensures Valid() && starts == old(starts) && tags == old(tags) && seen == old(seen) && old(finished) <= finished
      ensures stream == old(stream) + if mine && !corrupted && |aac| > 0 then [aac] else []
      ensures Shrunk(list, old(list))
    {
      if !mine || corrupted || |aac| == 0 { return; }
      Broadcast(aac);
      KeepForLater(aac);
    }

    // The ring takes in the frame.
    method TurnRing(aac: Frame)
      requires ring.Length == setup.capacity && RingHolds(ring[..], head, count, stream)
      modifies ring, this`head, this`count
      ensures RingHolds(ring[..], head, count, stream + [aac])
    {
      if ring.Length > 0 {
        RingTurns(ring[..], head, count, stream, aac);
        ring[head] := aac;
        head := (head + 1) % ring.Length;
        if count < ring.Length { count := count + 1; }
      }
    }

    method KeepForLater(aac: Frame)
      requires Heard(SEALS, aac)
      modifies ring, this`head, this`count, this`stream
      ensures Valid() && stream == old(stream) + [aac]
    {
      OpenHeard(SEALS, aac);
      AllHear(list, stream + [aac], stream, starts, setup);
      TurnRing(aac);
      stream := stream + [aac];
      Open(SEALS);
    }

    // The loop over the list is at track i.
    ghost predicate MidParts(i: nat, aac: Frame)
      reads `stream, `starts, `list, `songs, `tags, `finished, `tracks, list`next, list`file, list`open,
        list`packetsPreroll, list`packetsBody, list`packetsPostroll, list`isPostroll, list`remaining
    {
      && i <= |list| && Linked() && Hearing(list, i, stream + [aac], stream, starts, setup)
      && AllDone(stream + [aac])
    }

    ghost predicate Midway(seals: seq<bool>, i: nat, aac: Frame)
      reads `stream, `starts, `list, `songs, `tags, `finished, `tracks, list`next, list`file, list`open,
        list`packetsPreroll, list`packetsBody, list`packetsPostroll, list`isPostroll, list`remaining
      decreases |seals|
    {
      if |seals| > 0 then Midway(seals[1..], i, aac) else MidParts(i, aac)
    }

    lemma {:induction false} OpenMid(seals: seq<bool>, i: nat, aac: Frame)
      ensures Midway(seals, i, aac) == MidParts(i, aac)
      decreases |seals|
    {
      if |seals| > 0 { OpenMid(seals[1..], i, aac); }
    }

    lemma MidLinked(i: nat, aac: Frame)
      requires Midway(SEALS, i, aac)
      ensures Linked() && i <= |list|
    {
      OpenMid(SEALS, i, aac);
    }

    method Pass(prev: Track?, curr: Track, aac: Frame, ghost i: nat) returns (unlinked: bool)
      requires Midway(SEALS, i, aac) && i < |list| && curr == list[i] && Tagged(curr, tags)
      requires prev == if i > 0 then list[i - 1] else null
      modifies list, this`tracks, this`list, this`finished, this`songs
      ensures Midway(SEALS, if unlinked then i else i + 1, aac) && old(finished) <= finished && Books() == old(Books())
      ensures list == if unlinked then old(list[..i] + list[i + 1..]) else old(list)
      ensures unlinked ==> i > 0
    {
      OpenMid(SEALS, i, aac);
      unlinked := FeedOne(prev, curr, aac, i);
      OpenMid(SEALS, if unlinked then i else i + 1, aac);
    }

    // One turn of the loop over the list.
    method Turn(prev: Track?, curr: Track, aac: Frame, ghost i: nat) returns (p: Track?, c: Track?, ghost n: nat)
      requires Midway(SEALS, i, aac) && i < |list| && curr == list[i] && Tagged(curr, tags)
      requires prev == if i > 0 then list[i - 1] else null
      modifies list, this`tracks, this`list, this`finished, this`songs
      ensures Midway(SEALS, n, aac)
      ensures n <= |list|
      ensures c == (if n < |list| then list[n] else null) && p == (if n > 0 then list[n - 1] else null)
      ensures |list| - n < old(|list|) - i && old(finished) <= finished && Books() == old(Books())
      ensures Shrunk(list, old(list))
    {
      var unlinked := Pass(prev, curr, aac, i);
      MidLinked(if unlinked then i else i + 1, aac);
      if unlinked {
        p, c, n := prev, if prev == null then tracks else prev.next, i;
      } else {
        p, c, n := curr, curr.next, i + 1;
      }
    }

    // All tracks have heard the frame, the ring has not.
    ghost predicate HeardParts(aac: Frame)
      reads this, ring, list
    {
      && ring.Length == setup.capacity && RingHolds(ring[..], head, count, stream) && Ordered(starts, |stream|)
      && |tags| == |starts| && AllTagged()
      && Linked() && Hearing(list, |list|, stream + [aac], stream, starts, setup) && AllDone(stream + [aac])
      && Balanced(songs, list, |starts|)
    }

    ghost predicate Heard(seals: seq<bool>, aac: Frame)
      reads this, ring, list
      decreases |seals|
    {
      if |seals| > 0 then Heard(seals[1..], aac) else HeardParts(aac)
    }

    lemma {:induction false} OpenHeard(seals: seq<bool>, aac: Frame)
      ensures Heard(seals, aac) == HeardParts(aac)
      decreases |seals|
    {
      if |seals| > 0 { OpenHeard(seals[1..], aac); }
    }

    method Broadcast(aac: Frame)
      requires Valid()
      modifies list, this`tracks, this`list, this`finished, this`songs
      ensures Heard(SEALS, aac) && old(finished) <= finished
      ensures Shrunk(list, old(list))
    {
      Open(SEALS);
      var prev: Track?, curr := null, tracks;
      ghost var i: nat := 0;
      StillDone(aac);
      OpenMid(SEALS, 0, aac);
      while curr != null
        invariant Midway(SEALS, i, aac) && i <= |list| && old(finished) <= finished && Books() == old(Books())
        invariant curr == if i < |list| then list[i] else null
        invariant prev == if i > 0 then list[i - 1] else null
        invariant Shrunk(list, old(list)) && AllTagged()
        decreases |list| - i
      {
        prev, curr, i := Turn(prev, curr, aac, i);
        ShrunkTagged(list, old(list), tags);
      }
      AllHeard(aac);
    }

    lemma AllHeard(aac: Frame)
      requires Midway(SEALS, |list|, aac) && AllTagged() && |tags| == |starts| && Balanced(songs, list, |starts|)
      requires ring.Length == setup.capacity && RingHolds(ring[..], head, count, stream) && Ordered(starts, |stream|)
      ensures Heard(SEALS, aac)
    {
      OpenMid(SEALS, |list|, aac);
      OpenHeard(SEALS, aac);
    }

    // ---------- a new song ----------

    // Every open track is in post-roll, or is done with.
    ghost predicate EndedParts()
      reads this, ring, list
    {
      && ring.Length == setup.capacity && RingHolds(ring[..], head, count, stream)
      && Linked() && AllDone(stream) && Ordered(starts, |stream|)
      && |starts| > 0 && |tags| == |starts| && AllTagged() && starts[|starts| - 1] == |stream| && Balanced(songs, list, |starts| - 1)
      && Ending(list, 0, stream, starts, setup)
    }

    ghost predicate SongEnded()
      reads this, ring, list
    {
      SealedEnd(SEALS)
    }

    ghost predicate SealedEnd(seals: seq<bool>)
      reads this, ring, list
      decreases |seals|
    {
      if |seals| > 0 then SealedEnd(seals[1..]) else EndedParts()
    }

    lemma {:induction false} OpenEnd(seals: seq<bool>)
      ensures SealedEnd(seals) == EndedParts()
      decreases |seals|
    {
      if |seals| > 0 { OpenEnd(seals[1..]); }
    }

    /** start_new_song, first part: the song that is on ends when the next starts. */
    method EndTrack(cur: Track, ghost more: seq<nat>)
      requires cur.open && !cur.isPostroll && cur.Follows(stream, starts, setup) && Tagged(cur, tags)
      requires more == starts + [|stream|] && DoneBy(stream, more)
      modifies cur`isPostroll, cur`remaining, cur`open, this`finished, this`songs
      ensures cur.Follows(stream, more, setup) && (cur.open ==> cur.isPostroll)
      ensures DoneBy(stream, more) && old(finished) <= finished
      ensures cur.open == setup.postroll && songs == if setup.postroll then old(songs) else old(songs) + [cur.id]
    {
      if setup.postroll {
        cur.isPostroll, cur.remaining := true, setup.postrollFrames;
      } else {
        var f := cur.Finalize(setup.minSongPackets);
        assert AreDone(f, cur.id, stream, more, setup, tags);
        finished := finished + [f];
        songs := songs + [cur.id];
      }
    }

    // Its file is booked as before, open or finished.
    method EndFirst(cur: Track, ghost more: seq<nat>)
      requires Linked() && |list| > 0 && cur == list[0] && Tagged(cur, tags)
      requires cur.open && !cur.isPostroll && cur.Follows(stream, starts, setup)
      requires more == starts + [|stream|] && DoneBy(stream, more)
      modifies cur`isPostroll, cur`remaining, cur`open, this`finished, this`songs
      ensures cur.Follows(stream, more, setup) && (cur.open ==> cur.isPostroll)
      ensures DoneBy(stream, more) && old(finished) <= finished && Books() == old(Books())
    {
      ghost var rest := list[..0] + list[1..];
      Without(list, 0);
      BookedWithout(songs, list, 0);
      BookedMore(songs, rest, cur.id);
      EndTrack(cur, more);
      BookedWithout(songs, list, 0);
    }

    // Only the newest track changes.
    method OnlyFirst(cur: Track, ghost more: seq<nat>)
      requires Linked() && |list| > 0 && cur == list[0] && Ending(list, 1, stream, more, setup) && Tagged(cur, tags)
      requires cur.open && !cur.isPostroll && cur.Follows(stream, starts, setup)
      requires more == starts + [|stream|] && DoneBy(stream, more)
      modifies cur`isPostroll, cur`remaining, cur`open, this`finished, this`songs
      ensures Ending(list, 0, stream, more, setup) && DoneBy(stream, more) && old(finished) <= finished
      ensures Books() == old(Books())
    {
      assert Ending(list[1..], 0, stream, more, setup);
      EndFirst(cur, more);
      assert Ending(list[1..], 0, stream, more, setup);
      assert forall j :: 1 <= j < |list| ==> list[j] == list[1..][j - 1];
    }

    method EndPrimary(ghost more: seq<nat>)
      requires Parts() && more == starts + [|stream|]
      modifies list`isPostroll, list`remaining, list`open, this`finished, this`songs
      ensures Linked() && Ending(list, 0, stream, more, setup) && DoneBy(stream, more) && old(finished) <= finished
      ensures Books() == old(Books())
    {
      var cur := Primary();
      AllLater(more);
      if cur != null {
        PrimaryLeads(cur);
        RestFollow(list, stream, starts, more, setup);
        OnlyFirst(cur, more);
      }
    }

    method EndSong(ghost title: string, ghost artist: string)
      requires Valid()
      modifies list`isPostroll, list`remaining, list`open, this`finished, this`songs, this`starts, this`tags
      ensures SongEnded() && starts == old(starts) + [|stream|] && tags == old(tags) + [(title, artist)]
      ensures old(finished) <= finished
    {
      ghost var more := starts + [|stream|];
      Open(SEALS);
      EndPrimary(more);
      Announce(more, title, artist);
    }

    // The new song counts from here on.
    method Announce(ghost more: seq<nat>, ghost title: string, ghost artist: string)
      requires ring.Length == setup.capacity && RingHolds(ring[..], head, count, stream)
      requires Linked() && AllTagged() && Ending(list, 0, stream, more, setup) && DoneBy(stream, more)
      requires |tags| == |starts| && Balanced(songs, list, |starts|)
      requires more == starts + [|stream|] && Ordered(more, |stream|)
      modifies this`starts, this`tags
      ensures SongEnded() && starts == more && tags == old(tags) + [(title, artist)]
    {
      MoreTags(tags + [(title, artist)], more);
      starts, tags := more, tags + [(title, artist)];
      OpenEnd(SEALS);
    }

    lemma PrimaryLeads(t: Track)
      requires Hearing(list, 0, stream, stream, starts, setup) && exists i :: IsPrimary(i, t)
      ensures |list| > 0 && t == list[0]
    {
      var i :| IsPrimary(i, t);
    }

    // A new tag does not matter to the songs before.
    lemma MoreTags(later: seq<(string, string)>, more: seq<nat>)
      requires AllTagged() && tags <= later && DoneBy(stream, more)
      ensures forall i :: 0 <= i < |list| ==> Tagged(list[i], later)
      ensures forall k :: 0 <= k < |finished| ==> AreDone(finished[k], songs[k], stream, more, setup, later)
    {
    }

    lemma AllLater(more: seq<nat>)
      requires AllDone(stream) && starts <= more && Ordered(more, |stream|)
      ensures DoneBy(stream, more)
    {
      forall k | 0 <= k < |finished| ensures AreDone(finished[k], songs[k], stream, more, setup, tags) {
        DoneLater(finished[k], songs[k], stream, stream, starts, more, setup, tags, tags);
      }
    }

    /** Frame i of the ring, counted from the oldest. */
    method RingFrame(i: nat) returns (frame: Frame)
      requires ring.Length > 0 && RingHolds(ring[..], head, count, stream) && i < count
      ensures frame == stream[|stream| - count + i]
    {
      RingSlot(|stream|, count, ring.Length, i);
      var startIdx := if count < ring.Length then 0 else head;
      var idx := (startIdx + i) % ring.Length;
      assert idx == (|stream| - count + i) % ring.Length;
      frame := ring[..][idx];
    }

    /** The frames of the ring, oldest first, go into a new track's file. */
    method WritePreroll(t: Track)
      requires ring.Length == setup.capacity && RingHolds(ring[..], head, count, stream)
      requires t.file == [] && t.packetsPreroll == 0
      modifies t`file, t`packetsPreroll
      ensures t.packetsPreroll == Min(|stream|, setup.capacity)
      ensures t.file == stream[|stream| - t.packetsPreroll..]
    {
      if ring.Length == 0 {
        assert stream[|stream|..] == [];
        return;
      }
      var i := 0;
      while i < count
        invariant 0 <= i <= count && t.packetsPreroll == i
        invariant t.file == stream[|stream| - count..|stream| - count + i]
      {
        var frame := RingFrame(i);
        t.file := t.file + [frame];
        t.packetsPreroll := t.packetsPreroll + 1;
        i := i + 1;
      }
    }

    /** start_new_song */
    method StartNewSong(title: string, artist: string, album: string)
      requires Valid()
      modifies this`tracks, this`list, this`finished, this`songs, this`starts, this`tags, list
      ensures Valid() && starts == old(starts) + [|stream|] && old(finished) <= finished
      ensures tags == old(tags) + [(title, artist)]
      ensures |list| > 0 && list[1..] == old(list) && fresh(list[0])
      ensures list[0].title == Clip(title) && list[0].artist == Clip(artist)
    {
      EndSong(title, artist);
      var t := MakeTrack(title, artist, album);
      Link(t);
    }

    // The new song's track, its file begun with the frames of the ring.
    method MakeTrack(title: string, artist: string, album: string) returns (t: Track)
      requires SongEnded() && |tags| > 0 && tags[|tags| - 1] == (title, artist)
      ensures SongEnded() && fresh(t) && t.title == Clip(title) && t.artist == Clip(artist)
      ensures t.open && !t.isPostroll && t.id == |starts| - 1 && t.Follows(stream, starts, setup) && Tagged(t, tags)
    {
      OpenEnd(SEALS);
      t := NewTrack(title, artist, album);
    }

    method NewTrack(title: string, artist: string, album: string) returns (t: Track)
      requires ring.Length == setup.capacity && RingHolds(ring[..], head, count, stream)
      requires Ordered(starts, |stream|) && |tags| == |starts| > 0 && starts[|starts| - 1] == |stream|
      requires tags[|tags| - 1] == (title, artist)
      ensures fresh(t) && t.title == Clip(title) && t.artist == Clip(artist)
      ensures t.open && !t.isPostroll && t.id == |starts| - 1 && t.Follows(stream, starts, setup) && Tagged(t, tags)
    {
      t := new Track(title, artist, album, |starts| - 1);
      WritePreroll(t);
    }

    method Prepend(t: Track)
      requires Linked() && t !in list && Tagged(t, tags)
      modifies t`next, this`tracks, this`list
      ensures Linked() && list == [t] + old(list) && (old(AllTagged()) ==> AllTagged())
    {
      t.next := tracks;
      tracks := t;
      list := [t] + list;
    }

    // The new track leads the list.
    method Link(t: Track)
      requires SongEnded() && t !in list
      requires t.open && !t.isPostroll && t.id == |starts| - 1 && t.Follows(stream, starts, setup) && Tagged(t, tags)
      modifies t`next, this`tracks, this`list
      ensures Valid() && list == [t] + old(list)
    {
      OpenEnd(SEALS);
      ghost var rest := list;
      BookedNew(songs, list, t);
      Prepend(t);
      NewLeads(t, rest, stream, starts, setup);
      Open(SEALS);
    }

    // The tag is that of the song that is on.
    ghost predicate IsOn(title: string, artist: string)
      reads this
    {
      seen && |list| > 0 && list[0].title == title && list[0].artist == artist
    }

    method Repeated(title: string, artist: string, album: string) returns (same: bool)
      requires Valid()
      modifies list`album
      ensures Valid() && (same <==> IsOn(title, artist))
      ensures same ==> list[0].album == if old(list[0].album) == "" then Clip(album) else old(list[0].album)
      ensures forall i {:trigger list[i]} :: 0 <= i < |list| && (i > 0 || !same) ==> list[i].album == old(list[i].album)
    {
      Open(SEALS);
      var cur := Primary();
      if cur != null { PrimaryLeads(cur); }
      same := seen && cur != null && cur.title == title && cur.artist == artist;
      if same && cur.album == "" && album != "" { cur.album := Clip(album); }
    }

    /** recorder_on_id3: the tag of the song that is on is only good for the album it
        lacks; any other starts a song, but the first of all only if that is wanted. */
    method OnId3(mine: bool, title: string, artist: string, album: string)
      requires Valid()
      modifies this`seen, this`tracks, this`list, this`finished, this`songs, this`starts, this`tags, list
      ensures Valid() && seen == (old(seen) || mine) && old(finished) <= finished
      ensures if mine && !old(IsOn(title, artist)) && (old(seen) || setup.recordInitial)
        then starts == old(starts) + [|stream|] && tags == old(tags) + [(title, artist)] && |list| > 0 && list[1..] == old(list) &&
             list[0].title == Clip(title) && list[0].artist == Clip(artist)
        else starts == old(starts) && tags == old(tags) && list == old(list)
      ensures mine && old(IsOn(title, artist)) ==>
        |list| > 0 && list[0].album == if old(list[0].album) == "" then Clip(album) else old(list[0].album)
    {
      if !mine { return; }
      var same := Repeated(title, artist, album);
      if same { return; }
      if !seen {
        seen := true;
        if setup.recordInitial { StartNewSong(title, artist, album); }
      } else {
        StartNewSong(title, artist, album);
      }
    }

    // The files finished from number n on end where the stream does.
    ghost predicate CutFrom(n: nat)
      reads `finished, `songs, `stream, `starts, `tags
    {
      |songs| == |finished| && forall k :: n <= k < |finished| ==>
        IsCutAt(songs[k], finished[k], stream, starts, setup) && Labelled(finished[k], songs[k], tags, setup)
    }

    /** recorder_destroy: on a clean shutdown the open tracks' files are closed as they
        are, gap-free runs up to the last frame heard, and then every song has one
        finished file. */
    method Destroy(clean: bool)
      requires Valid()
      modifies list`open, this`tracks, this`list, this`finished, this`songs
      ensures tracks == null && list == [] && old(finished) <= finished && old(songs) <= songs
      ensures !clean ==> finished == old(finished)
      ensures CutFrom(|old(finished)|)
      ensures clean ==> multiset(songs) == FirstSongs(|starts|)
    {
      Open(SEALS);
      DestroyTracks(clean);
      OpenBooked(SEALS, songs, []);
      OpenAll(SEALS, |starts|);
      tracks := null;
      list := [];
    }

    method DestroyTracks(clean: bool)
      requires Linked() && Following(list, 0, stream, starts, setup) && CutFrom(|finished|) && AllTagged()
      modifies list`open, this`finished, this`songs
      ensures old(finished) <= finished && old(songs) <= songs && (!clean ==> finished == old(finished))
      ensures CutFrom(|old(finished)|)
      ensures clean ==> Booked(SEALS, songs, []) == old(Books())
    {
      var t := tracks;
      ghost var i: nat := 0;
      while t != null
        invariant i <= |list| && t == if i < |list| then list[i] else null
        invariant Following(list, i, stream, starts, setup)
        invariant old(finished) <= finished && old(songs) <= songs && (!clean ==> finished == old(finished))
        invariant CutFrom(|old(finished)|)
        invariant Shut(list, i)
        invariant clean ==> Books() == old(Books())
        decreases |list| - i
      {
        var next := t.next;
        DestroyTrack(t, clean, |old(finished)|, i);
        t := next;
        i := i + 1;
      }
      ClosedAll(songs, list);
    }

    method DestroyTrack(t: Track, clean: bool, ghost n: nat, ghost i: nat)
      requires Linked() && i < |list| && t == list[i] && Following(list, i, stream, starts, setup) && CutFrom(n)
      requires Shut(list, i) && Tagged(t, tags)
      modifies t`open, this`finished, this`songs
      ensures Following(list, i + 1, stream, starts, setup) && CutFrom(n) && Shut(list, i + 1)
      ensures old(finished) <= finished && old(songs) <= songs && (!clean ==> finished == old(finished))
      ensures clean ==> Books() == old(Books())
    {
      if t.open {
        if clean {
          var f := CloseAt(t, i);
          assert IsCutAt(t.id, f, stream, starts, setup);
        } else {
          t.open := false;
        }
      }
    }

    method CloseAt(t: Track, ghost i: nat) returns (f: Finished)
      requires Linked() && i < |list| && t == list[i] && t.open && Tagged(t, tags)
      modifies t`open, this`finished, this`songs
      ensures !t.open && finished == old(finished) + [f] && songs == old(songs) + [t.id]
      ensures f == Finished(t.title, t.artist, t.file, t.packetsPreroll, t.packetsBody, t.packetsPostroll, f.kept)
      ensures Labelled(f, t.id, tags, setup)
      ensures Books() == old(Books())
    {
      ghost var rest := list[..i] + list[i + 1..];
      Without(list, i);
      BookedWithout(songs, list, i);
      BookedMore(songs, rest, t.id);
      f := t.Finalize(setup.minSongPackets);
      finished, songs := finished + [f], songs + [t.id];
      BookedWithout(songs, list, i);
    }
  }

  ghost predicate Following(list: seq<Track>, i: nat, stream: seq<Frame>, starts: seq<nat>, s: Setup)
    reads list`file, list`open, list`packetsPreroll, list`packetsBody, list`packetsPostroll, list`isPostroll,
      list`remaining
  {
    forall j :: i <= j < |list| ==> list[j].Follows(stream, starts, s)
  }

  // A file of song id that ends where the stream does.
  ghost predicate IsCutAt(id: nat, f: Finished, stream: seq<Frame>, starts: seq<nat>, s: Setup) {
    var rest := f.body + f.postroll;
    id < |starts| && IsRun(f.file, stream, starts[id], f.preroll, rest, s.capacity) && starts[id] + rest == |stream|
  }

  /** What a finished file is, over any run of frames and tags: the last frames before
      its song, as many as the ring has room for, the song up to where the next one
      starts, and the whole post-roll, without gap or repetition; its counters add up
      to its frames. */
  lemma FinishedFile(r: Recorder, k: nat)
    requires r.Valid() && k < |r.finished|
    ensures k < |r.songs| && var f, id, all := r.finished[k], r.songs[k], r.starts;
      && id + 1 < |all| && all[id] <= all[id + 1]
      && f.preroll == Min(all[id], r.setup.capacity)
      && f.body == all[id + 1] - all[id]
      && f.postroll == (if !r.setup.postroll then 0 else if r.setup.postrollFrames > 1 then r.setup.postrollFrames else 1)
      && all[id + 1] + f.postroll <= |r.stream|
      && f.file == r.stream[all[id] - f.preroll..all[id + 1] + f.postroll]
      && |f.file| == f.preroll + f.body + f.postroll
    ensures |r.tags| == |r.starts| && var f, tag := r.finished[k], r.tags[r.songs[k]];
      && f.title == Clip(tag.0) && f.artist == Clip(tag.1)
      && (f.kept <==> |f.file| >= r.setup.minSongPackets && f.title != "" && f.artist != "" && f.title != "Unknown")
  {
    r.Open(SEALS);
    assert AreDone(r.finished[k], r.songs[k], r.stream, r.starts, r.setup, r.tags);
  }

  /** Every song has one file: finished, or open in the list and then of one track. */
  lemma EverySongOnce(r: Recorder, id: nat)
    requires r.Valid()
    ensures multiset(r.songs)[id] + OpenSongs(r.list)[id] == if id < |r.starts| then 1 else 0
    ensures id < |r.starts| ==>
      (id !in r.songs <==> exists i :: 0 <= i < |r.list| && r.list[i].open && r.list[i].id == id)
  {
    r.Open(SEALS);
    OpenBooked(SEALS, r.songs, r.list);
    OpenAll(SEALS, |r.starts|);
    EachOnce(|r.starts|, id);
    assert r.Books()[id] == multiset(r.songs)[id] + OpenSongs(r.list)[id];
    assert id in r.songs <==> multiset(r.songs)[id] > 0;
    if OpenSongs(r.list)[id] > 0 { var i := OpenAt(r.list, id); }
    forall i | 0 <= i < |r.list| && r.list[i].open && r.list[i].id == id ensures OpenSongs(r.list)[id] > 0 {
      OpenIn(r.list, i);
    }
  }

  /** The tag of the song that is on is recognised when it is repeated if and only if
      title and artist fit their fields. */
  lemma RepeatHeardIff(r: Recorder, title: string, artist: string)
    requires r.seen && |r.list| > 0 && r.list[0].title == Clip(title) && r.list[0].artist == Clip(artist)
    ensures r.IsOn(title, artist) <==> |title| <= 255 && |artist| <= 255
  {
    assert |Clip(title)| <= TEXT && |Clip(artist)| <= TEXT;
  }

  /** At most one open track is not in post-roll: that of the newest song, which leads
      the list. */
  lemma OnlyNewestIsOn(r: Recorder, i: nat)
    requires r.Valid() && i < |r.list| && r.list[i].open
    ensures !r.list[i].isPostroll <==> i == 0
    ensures !r.list[i].isPostroll ==> r.list[i].id + 1 == |r.starts|
  {
    r.Open(SEALS);
    assert r.list[i].Follows(r.stream, r.starts, r.setup);
  }

  lemma ShrunkTagged(list: seq<Track>, was: seq<Track>, tags: seq<(string, string)>)
    requires Shrunk(list, was) && forall i :: 0 <= i < |was| ==> Tagged(was[i], tags)
    ensures forall i :: 0 <= i < |list| ==> Tagged(list[i], tags)
  {
  }

  // Tracks have gone, but not the first.
  ghost predicate Shrunk(list: seq<Track>, was: seq<Track>) {
    (forall k :: 0 <= k < |list| ==> list[k] in was) && (|list| > 0 <==> |was| > 0) && (|list| > 0 ==> list[0] == was[0])
  }

  ghost function NextOf(list: seq<Track>, i: nat): Track?
    requires i < |list|
  {
    if i + 1 < |list| then list[i + 1] else null
  }

  ghost predicate AreDone(f: Finished, id: nat, stream: seq<Frame>, starts: seq<nat>, s: Setup,
                          tags: seq<(string, string)>) {
    Labelled(f, id, tags, s) && IsDone(f.file, f.preroll, f.body, f.postroll, id, stream, starts, s)
  }

  lemma DoneLater(f: Finished, id: nat, stream: seq<Frame>, later: seq<Frame>, starts: seq<nat>, more: seq<nat>, s: Setup,
                  tags: seq<(string, string)>, moreTags: seq<(string, string)>)
    requires AreDone(f, id, stream, starts, s, tags) && tags <= moreTags
    requires stream <= later && starts <= more && Ordered(more, |later|)
    ensures AreDone(f, id, later, more, s, moreTags)
  {
    var a, b := starts[id] - f.preroll, starts[id] + f.body + f.postroll;
    assert later[a..b] == stream[a..b];
  }
}
