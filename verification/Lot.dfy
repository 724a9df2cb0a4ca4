/** Large-object transfer of src/output.c:734-951, for one data port: twelve slots in
    which files are put together from fragments that arrive in any order. */
module Lot {
  import opened Basics

  const SLOTS := 12
  const FRAGMENT_SIZE := 256
  const MAX_FRAGMENTS := 256

  // ---------- fragments ----------

  datatype Fragment = Fragment(seqno: nat, data: seq<bv8>)

  // The first copy of fragment k among those accepted in log.
  function First(log: seq<Fragment>, k: nat): Option<seq<bv8>> {
    if |log| == 0 then None else if log[0].seqno == k then Some(log[0].data) else First(log[1..], k)
  }

  lemma {:induction false} FirstNext(log: seq<Fragment>, f: Fragment, k: nat)
    ensures First(log + [f], k) == if First(log, k).None? && f.seqno == k then Some(f.data) else First(log, k)
  {
    if |log| == 0 {
      assert (log + [f])[1..] == [];
    } else {
      assert (log + [f])[1..] == log[1..] + [f];
      FirstNext(log[1..], f, k);
    }
  }

  lemma {:induction false} FirstOf(log: seq<Fragment>, k: nat) returns (i: nat)
    requires First(log, k).Some?
    ensures i < |log| && log[i] == Fragment(k, First(log, k).value)
    ensures forall j :: 0 <= j < i ==> log[j].seqno != k
  {
    if log[0].seqno == k {
      i := 0;
    } else {
      i := FirstOf(log[1..], k);
      i := i + 1;
    }
  }

  function Length(d: Option<seq<bv8>>): nat { if d.Some? then |d.value| else 0 }

  // The bytes of the first copies of fragments 0 to n - 1.
  function Total(log: seq<Fragment>, n: nat): nat {
    if n == 0 then 0 else Total(log, n - 1) + Length(First(log, n - 1))
  }

  lemma {:induction false} TotalNext(log: seq<Fragment>, f: Fragment, n: nat)
    ensures Total(log + [f], n) ==
      Total(log, n) + if First(log, f.seqno).None? && f.seqno < n then |f.data| else 0
  {
    if n > 0 {
      TotalNext(log, f, n - 1);
      FirstNext(log, f, n - 1);
    }
  }

  // A fragment in its buffer: zeros up to 256 bytes.
  function Padded(d: seq<bv8>): (p: seq<bv8>)
    requires |d| <= FRAGMENT_SIZE
    ensures |p| == FRAGMENT_SIZE && p[..|d|] == d && forall k :: |d| <= k < FRAGMENT_SIZE ==> p[k] == 0
  {
    d + seq(FRAGMENT_SIZE - |d|, _ => 0)
  }

  // ---------- files ----------

  datatype Info = Info(size: nat, mime: nat, year: int, mon: int, mday: nat, hour: nat, min: nat)

  datatype File = File(timestamp: nat, lot: nat, name: Option<seq<bv8>>, info: Info, bytesSoFar: nat,
                       fragments: seq<Option<seq<bv8>>>)

  const NO_INFO := Info(0, 0, 0, 0, 0, 0, 0)
  const FREE := File(0, 0, None, NO_INFO, 0, [])

  // A slot that has just been given to a file.
  function Blank(timestamp: nat, lot: nat): File {
    File(timestamp, lot, None, NO_INFO, 0, seq(MAX_FRAGMENTS, _ => None))
  }

  // The slot holds the first accepted copy of each fragment in log.
  ghost predicate Keeps(f: File, log: seq<Fragment>) {
    if f.timestamp == 0 then f == FREE && log == []
    else
      && |f.fragments| == MAX_FRAGMENTS
      && (forall i :: 0 <= i < |log| ==> log[i].seqno < MAX_FRAGMENTS && |log[i].data| <= FRAGMENT_SIZE)
      && (forall k :: 0 <= k < MAX_FRAGMENTS ==> Stored(f, log, k))
      && f.bytesSoFar == Total(log, MAX_FRAGMENTS)
      && f.info.size < 0x1_0000_0000
      && (if f.name.None? then f.info == NO_INFO else NameOf(f.name.value) == f.name.value)
  }

  ghost predicate Stored(f: File, log: seq<Fragment>, k: nat)
    requires k < |f.fragments|
  {
    match First(log, k)
    case None => f.fragments[k] == None
    case Some(d) => |d| <= FRAGMENT_SIZE && f.fragments[k] == Some(Padded(d))
  }

  lemma {:induction false} NothingYet(timestamp: nat, lot: nat)
    requires timestamp > 0
    ensures Keeps(Blank(timestamp, lot), [])
  {
    NoBytes(MAX_FRAGMENTS);
  }

  lemma {:induction false} NoBytes(n: nat)
    ensures Total([], n) == 0
  {
    if n > 0 { NoBytes(n - 1); }
  }

  // What accepting f makes of a slot.
  function Accept(file: File, f: Fragment): File
    requires f.seqno < |file.fragments| && |f.data| <= FRAGMENT_SIZE
  {
    if file.fragments[f.seqno].Some? then file
    else file.(fragments := file.fragments[f.seqno := Some(Padded(f.data))], bytesSoFar := file.bytesSoFar + |f.data|)
  }

  lemma AcceptKeeps(file: File, log: seq<Fragment>, f: Fragment)
    requires Keeps(file, log) && file.timestamp > 0 && f.seqno < MAX_FRAGMENTS && |f.data| <= FRAGMENT_SIZE
    ensures Keeps(Accept(file, f), log + [f])
  {
    var now := Accept(file, f);
    assert Stored(file, log, f.seqno);
    forall k | 0 <= k < MAX_FRAGMENTS ensures Stored(now, log + [f], k) {
      FirstNext(log, f, k);
      assert Stored(file, log, k);
    }
    TotalNext(log, f, MAX_FRAGMENTS);
  }

  // ---------- completion ----------

  // Fragments a file of this size has; the sum is of 32 bits (output.c:931).
  function NumFragments(size: nat): nat { (size + 255) % 0x1_0000_0000 / FRAGMENT_SIZE }

  // Fragments from up to n - 1 are all there.
  predicate AllThere(f: File, n: nat) {
    n <= |f.fragments| && forall k :: 0 <= k < n ==> f.fragments[k].Some?
  }

  function Contents(f: File, n: nat): seq<bv8>
    requires AllThere(f, n)
  {
    if n == 0 then [] else Contents(f, n - 1) + f.fragments[n - 1].value
  }

  // A file of this size fits in the slot.
  predicate SizeFits(size: nat) { NumFragments(size) <= MAX_FRAGMENTS }

  /** The fragments have room for all bytes exactly when the 32-bit sum does not
      wrap; up to 65536 bytes it does not, and the file fits in a slot. */
  lemma EnoughFragmentsIff(size: nat)
    requires size < 0x1_0000_0000
    ensures NumFragments(size) * FRAGMENT_SIZE >= size <==> size == 0 || size + 255 < 0x1_0000_0000
    ensures size <= 65536 ==> SizeFits(size) && NumFragments(size) * FRAGMENT_SIZE >= size
    ensures size <= 65536 && size > 0 ==> (NumFragments(size) - 1) * FRAGMENT_SIZE < size
  {
  }

  lemma FitsIff(size: nat)
    requires 0 < size < 0x1_0000_0000 && SizeFits(size)
    ensures size <= 65536 <==> NumFragments(size) > 0
    ensures size <= 65536 <==> size + 255 < 0x1_0000_0000
  {
  }

  // ---------- the header of an object ----------

  function U16(b: seq<bv8>, p: nat): (v: nat)
    requires p + 2 <= |b|
    ensures v < 0x1_0000
  {
    (b[p] as int) + 256 * (b[p + 1] as int)
  }

  function U32(b: seq<bv8>, p: nat): (v: nat)
    requires p + 4 <= |b|
    ensures v < 0x1_0000_0000
  {
    U16(b, p) + 0x1_0000 * U16(b, p + 2)
  }

  function InfoOf(b: seq<bv8>): (info: Info)
    requires |b| >= 16
    ensures info.size < 0x1_0000_0000
  {
    var b4, b5, b6, b7 := b[4] as int, b[5] as int, b[6] as int, b[7] as int;
    Info(U32(b, 8), U32(b, 12), b7 * 16 + b6 / 16 - 1900, b6 % 16 - 1, b5 / 8, b5 % 8 * 4 + b4 / 64, b4 % 64)
  }

  // strndup: a name ends at its first zero.
  function NameOf(raw: seq<bv8>): seq<bv8> {
    if |raw| == 0 || raw[0] == 0 then [] else [raw[0]] + NameOf(raw[1..])
  }

  lemma {:induction false} NamedOnce(raw: seq<bv8>)
    ensures NameOf(NameOf(raw)) == NameOf(raw)
  {
    if |raw| > 0 && raw[0] != 0 {
      NamedOnce(raw[1..]);
      assert NameOf(raw)[1..] == NameOf(raw[1..]);
    }
  }

  // The slot describes another object than header b with this name.
  predicate Differs(f: File, info: Info, raw: seq<bv8>) { f.name.Some? && (f.name.value != raw || f.info != info) }

  // What the header makes of the slot.
  function Described(f: File, info: Info, raw: seq<bv8>, timestamp: nat): File {
    (if Differs(f, info, raw) then Blank(timestamp, f.lot) else f).(name := Some(NameOf(raw)), info := info)
  }

  lemma {:induction false} NameWhole(raw: seq<bv8>)
    ensures NameOf(raw) == raw <==> 0 !in raw
  {
    if |raw| > 0 {
      assert raw == [raw[0]] + raw[1..];
      NameWhole(raw[1..]);
      if raw[0] != 0 { assert NameOf(raw)[1..] == NameOf(raw[1..]); }
    }
  }

  /** A header that comes again leaves the slot as it is, if and only if there is no
      zero in its name; a header that says something else empties it; the first
      header of a file keeps the fragments that came before it. */
  lemma HeaderAgain(f: File, info: Info, raw: seq<bv8>, timestamp: nat, other: Info, name: seq<bv8>)
    ensures f.name.None? ==> Described(f, info, raw, timestamp).fragments == f.fragments
    ensures var g := Described(f, info, raw, timestamp);
      && (0 !in raw ==> Described(g, info, raw, timestamp) == g)
      && (0 in raw || other != info ==> Described(g, other, raw, timestamp).fragments == seq(256, _ => None))
      && (0 !in name && name != NameOf(raw) ==> Described(g, info, name, timestamp).fragments == seq(256, _ => None))
      && g.info == info && g.name == Some(NameOf(raw))
  {
    NameWhole(raw);
    NameWhole(name);
  }

  lemma OfferedKeeps(file: File, log: seq<Fragment>, f: Fragment)
    requires Keeps(file, log) && file.timestamp > 0 && f.seqno < MAX_FRAGMENTS
    ensures Keeps(Offered(file, f), log + if |f.data| <= FRAGMENT_SIZE then [f] else [])
  {
    if |f.data| <= FRAGMENT_SIZE { AcceptKeeps(file, log, f); } else { assert log + [] == log; }
  }

  lemma DescribedKeeps(f: File, log: seq<Fragment>, info: Info, raw: seq<bv8>, timestamp: nat)
    requires info.size < 0x1_0000_0000
    requires Keeps(f, log) && f.timestamp > 0 && timestamp > 0
    ensures Keeps(Described(f, info, raw, timestamp), if Differs(f, info, raw) then [] else log)
  {
    NothingYet(timestamp, f.lot);
    NamedOnce(raw);
    var anew := Differs(f, info, raw);
    var base, kept := if anew then Blank(timestamp, f.lot) else f, if anew then [] else log;
    forall k | 0 <= k < MAX_FRAGMENTS ensures Stored(Described(f, info, raw, timestamp), kept, k) {
      assert Stored(base, kept, k);
    }
  }

  // ---------- the slots ----------

  datatype Event =
    | LotHeader(lot: nat, info: Info, name: seq<bv8>)
    | LotFragment(lot: nat, seqno: nat, repeat: nat, isDuplicate: bool, data: seq<bv8>, bytesSoFar: nat)
    | LotFile(lot: nat, info: Info, name: seq<bv8>, contents: seq<bv8>)

  class Store {
    const files: array<File>
    var lruCounter: nat
    var events: seq<Event>
    // What each slot has accepted since it was given to its file.
    ghost var logs: seq<seq<Fragment>>

    ghost predicate Valid()
      reads this, files
    {
      && files.Length == SLOTS == |logs|
      && lruCounter > 0
      && (forall i :: 0 <= i < SLOTS ==> Keeps(files[i], logs[i]) && files[i].timestamp <= lruCounter)
      && OneSlotEach()
    }

    // No two slots hold the same lot.
    ghost predicate OneSlotEach()
      requires files.Length == SLOTS
      reads files
    {
      forall i, j :: 0 <= i < j < SLOTS && files[i].timestamp > 0 && files[j].timestamp > 0 ==>
        files[i].lot != files[j].lot
    }

    constructor ()
      ensures Valid() && fresh(files) && events == []
      ensures files.Length == 12 && forall i :: 0 <= i < SLOTS ==> files[i] == FREE
    {
      files := new File[SLOTS](_ => FREE);
      lruCounter := 1;
      events := [];
      logs := seq(SLOTS, _ => []);
    }

    /** find_lot: the slot that holds the lot, or -1. */
    method FindLot(lot: nat) returns (i: int)
      requires Valid()
      ensures -1 <= i < SLOTS
      ensures i >= 0 ==> files[i].timestamp > 0 && files[i].lot == lot
      ensures i < 0 ==> forall j :: 0 <= j < SLOTS && files[j].timestamp > 0 ==> files[j].lot != lot
    {
      i := 0;
      while i < SLOTS
        invariant 0 <= i <= SLOTS
        invariant forall j :: 0 <= j < i && files[j].timestamp > 0 ==> files[j].lot != lot
      {
        if files[i].timestamp != 0 && files[i].lot == lot { return; }
        i := i + 1;
      }
      i := -1;
    }

    /** find_free_lot: a free slot if there is one, or else the slot that was used
        longest ago, which is emptied. */
    method FindFreeLot() returns (i: nat)
      requires Valid() && forall j :: 0 <= j < SLOTS ==> files[j].timestamp < 0xffff_ffff
      modifies files, this`logs
      ensures Valid() && i < SLOTS && files[i] == FREE
      ensures forall j :: 0 <= j < SLOTS && j != i ==> files[j] == old(files[j]) && logs[j] == old(logs[j])
      ensures old(files[i].timestamp) == 0 ||
        forall j :: 0 <= j < SLOTS ==> 0 < old(files[i].timestamp) <= old(files[j].timestamp)
    {
      var least, at := 0xffff_ffff, 0;
      i := 0;
      while i < SLOTS
        invariant 0 <= i <= SLOTS && at < SLOTS
        invariant forall j :: 0 <= j < i ==> files[j].timestamp > 0 && least <= files[j].timestamp
        invariant i > 0 ==> files[at].timestamp == least && at < i
        invariant i == 0 ==> least == 0xffff_ffff
      {
        var timestamp := files[i].timestamp;
        if timestamp == 0 { return; }
        if timestamp < least { least, at := timestamp, i; }
        i := i + 1;
      }
      i := at;
      files[i] := FREE;
      logs := logs[i := []];
    }

    /** A slot that no other file holds, made ready for the lot. */
    method MakeLot(lot: nat) returns (i: nat)
      requires Valid() && lruCounter < 0xffff_ffff
      requires forall j :: 0 <= j < SLOTS && files[j].timestamp > 0 ==> files[j].lot != lot
      requires forall j :: 0 <= j < SLOTS ==> files[j].timestamp < 0xffff_ffff
      modifies files, this`logs
      ensures Valid() && i < SLOTS
      ensures files[i] == Blank(lruCounter, lot) && logs[i] == []
      ensures forall j :: 0 <= j < SLOTS && j != i ==> files[j] == old(files[j]) && logs[j] == old(logs[j])
      ensures old(files[i].timestamp) == 0 ||
        forall j :: 0 <= j < SLOTS ==> 0 < old(files[i].timestamp) <= old(files[j].timestamp)
    {
      i := FindFreeLot();
      NothingYet(lruCounter, lot);
      files[i] := Blank(lruCounter, lot);
      logs := logs[i := []];
    }

    /** The slot of the lot, found or made; in either case it is now the one used last. */
    method Locate(lot: nat) returns (i: nat)
      requires Valid() && lruCounter < 0xffff_ffff
      modifies files, this`lruCounter, this`logs
      ensures Valid() && i < SLOTS && lruCounter == old(lruCounter) + 1
      ensures files[i].timestamp == old(lruCounter) && files[i].lot == lot
      ensures if old(files[i].timestamp) > 0 && old(files[i].lot) == lot
              then files[i] == old(files[i]).(timestamp := old(lruCounter)) && logs[i] == old(logs[i])
              else files[i] == Blank(old(lruCounter), lot) && logs[i] == []
      ensures forall j :: 0 <= j < SLOTS && j != i ==> files[j] == old(files[j]) && logs[j] == old(logs[j])
      ensures forall j :: 0 <= j < SLOTS && j != i && files[j].timestamp > 0 ==> files[j].lot != lot
      ensures
        || old(files[i].timestamp) == 0
        || old(files[i].lot) == lot
        || forall j :: 0 <= j < SLOTS ==> 0 < old(files[i].timestamp) <= old(files[j].timestamp)
    {
      var found := FindLot(lot);
      if found < 0 {
        i := MakeLot(lot);
      } else {
        i := found;
        Retimed(files[i], logs[i], lruCounter);
        files[i] := files[i].(timestamp := lruCounter);
      }
      lruCounter := lruCounter + 1;
    }

    /** The header of an object: a slot that describes another object is emptied. */
    method Describe(i: nat, b: seq<bv8>) returns (newData: bool)
      requires Valid() && i < SLOTS && files[i].timestamp > 0 && |b| >= 16
      modifies files, this`events, this`logs
      ensures Valid()
      ensures files[..] == old(files[..])[i := Described(old(files[i]), InfoOf(b), b[16..], lruCounter)]
      ensures logs == old(logs)[i := if Differs(old(files[i]), InfoOf(b), b[16..]) then [] else old(logs[i])]
      ensures newData <==> old(files[i].name).None? || Differs(old(files[i]), InfoOf(b), b[16..])
      ensures events == old(events) +
        if newData then [LotHeader(files[i].lot, InfoOf(b), NameOf(b[16..]))] else []
    {
      var info, raw := InfoOf(b), b[16..];
      var f := files[i];
      DescribedKeeps(f, logs[i], info, raw, lruCounter);
      newData := false;
      if f.name.Some? {
        if raw != f.name.value || info != f.info {
          f := Blank(lruCounter, f.lot);
          logs := logs[i := []];
          newData := true;
        }
      } else {
        newData := true;
      }
      f := f.(name := Some(NameOf(raw)), info := info);
      files[i] := f;
      if newData { events := events + [LotHeader(f.lot, info, NameOf(raw))]; }
    }

    // A slot goes on holding its lot, with other contents.
    method SetSlot(i: nat, f: File, ghost log: seq<Fragment>)
      requires Valid() && i < SLOTS && files[i].timestamp > 0
      requires Keeps(f, log) && 0 < f.timestamp <= lruCounter && f.lot == files[i].lot
      modifies files, this`logs
      ensures Valid()
      ensures files[..] == old(files[..])[i := f] && logs == old(logs)[i := log]
    {
      files[i] := f;
      logs := logs[i := log];
    }

    /** A fragment: the first copy is kept, and every one that is not too long reported. */
    method AddFragment(i: nat, seqno: nat, repeat: nat, data: seq<bv8>) returns (taken: bool, isDuplicate: bool)
      requires Valid() && i < SLOTS && files[i].timestamp > 0 && seqno < MAX_FRAGMENTS
      modifies files, this`events, this`logs
      ensures Valid()
      ensures isDuplicate <==> old(files[i]).fragments[seqno].Some?
      ensures taken <==> isDuplicate || |data| <= FRAGMENT_SIZE
      ensures files[..] == old(files[..])
        [i := Offered(old(files[i]), Fragment(seqno, data))]
      ensures logs == old(logs)
        [i := old(logs[i]) + if |data| <= FRAGMENT_SIZE then [Fragment(seqno, data)] else []]
      ensures events == old(events) +
        if taken then [LotFragment(files[i].lot, seqno, repeat, isDuplicate, data, files[i].bytesSoFar)] else []
    {
      var f := files[i];
      ghost var log := logs[i] + if |data| <= FRAGMENT_SIZE then [Fragment(seqno, data)] else [];
      OfferedKeeps(f, logs[i], Fragment(seqno, data));
      isDuplicate := true;
      if f.fragments[seqno].None? {
        isDuplicate := false;
        if |data| > FRAGMENT_SIZE {
          assert log == logs[i];
          return false, isDuplicate;
        }
        f := f.(fragments := f.fragments[seqno := Some(Padded(data))], bytesSoFar := f.bytesSoFar + |data|);
      }
      SetSlot(i, f, log);
      events := events + [LotFragment(f.lot, seqno, repeat, isDuplicate, data, f.bytesSoFar)];
      taken := true;
    }

    /** The file is reported when its fragments are all there. A size whose fragments
        do not fit the slot is in contract only while one that fits is missing. */
    method Report(i: nat) returns (inContract: bool)
      requires Valid() && i < SLOTS && files[i].timestamp > 0 && files[i].name.Some?
      modifies this`events
      ensures var f, n := files[i], NumFragments(files[i].info.size);
        && (inContract <==> n <= MAX_FRAGMENTS || !AllThere(f, MAX_FRAGMENTS))
        && events == old(events) +
             if AllThere(f, n) then [LotFile(f.lot, f.info, f.name.value, Contents(f, n))] else []
    {
      var f, n := files[i], NumFragments(files[i].info.size);
      var k := 0;
      while k < n
        invariant 0 <= k <= n && k <= MAX_FRAGMENTS && AllThere(f, k)
      {
        if k == MAX_FRAGMENTS { return false; }
        if f.fragments[k].None? { return true; }
        k := k + 1;
      }
      var data := [];
      k := 0;
      while k < n
        invariant 0 <= k <= n && data == Contents(f, k)
      {
        data := data + f.fragments[k].value;
        k := k + 1;
      }
      events := events + [LotFile(f.lot, f.info, f.name.value, data)];
      inContract := true;
    }

    /** A fragment of the file in slot i, and the file's report when it is complete. */
    method TakeFragment(i: nat, seqno: nat, repeat: nat, data: seq<bv8>, newData: bool) returns (inContract: bool)
      requires Valid() && i < SLOTS && files[i].timestamp > 0 && seqno < MAX_FRAGMENTS
      modifies files, this`events, this`logs
      ensures Valid()
      ensures events == old(events) + FragmentTold(old(files[i]), Fragment(seqno, data), repeat, newData)
      ensures files[..] == old(files[..])[i := Offered(old(files[i]), Fragment(seqno, data))]
      ensures logs == old(logs)
        [i := old(logs[i]) + if |data| <= FRAGMENT_SIZE then [Fragment(seqno, data)] else []]
      ensures !inContract ==> Overfull(files[i])
    {
      var taken, isDuplicate := AddFragment(i, seqno, repeat, data);
      inContract := true;
      if taken && (newData || !isDuplicate) && files[i].info.size != 0 {
        inContract := Report(i);
      }
    }

    /** The slot for a packet of the lot with this header, none or whole. */
    method OpenSlot(lot: nat, header: seq<bv8>) returns (i: nat, newData: bool)
      requires Valid() && lruCounter < 0xffff_ffff && (header == [] || |header| >= 16)
      modifies files, this`events, this`logs, this`lruCounter
      ensures Valid() && lruCounter == old(lruCounter) + 1
      ensures i < SLOTS && files[i] == Opened(old(files[i]), lot, header, old(lruCounter))
      ensures forall j :: 0 <= j < SLOTS && j != i ==> files[j] == old(files[j]) && logs[j] == old(logs[j])
      ensures logs[i] == if Carries(old(files[i]), lot, header) then old(logs[i]) else []
      ensures newData == Renews(old(files[i]), lot, header)
      ensures events == old(events) + HeaderTold(old(files[i]), lot, header)
    {
      i := Locate(lot);
      newData := false;
      if header != [] {
        newData := Describe(i, header);
      }
    }

    /** A well-formed packet goes to the one slot of its lot, whose log starts anew
        when the slot was given to another file; the slot and what is reported are
        those of the functions below. */
    method TakePacket(buf: seq<bv8>) returns (inContract: bool, i: nat)
      requires Valid() && lruCounter < 0xffff_ffff && WellFormed(buf)
      modifies files, this`events, this`logs, this`lruCounter
      ensures Valid() && lruCounter == old(lruCounter) + 1
      ensures i < SLOTS && files[i] == After(old(files[i]), buf, old(lruCounter))
      ensures forall j :: 0 <= j < SLOTS && j != i ==> files[j] == old(files[j]) && logs[j] == old(logs[j])
      ensures logs[i] ==
        (if Carries(old(files[i]), U16(buf, 2), Header(buf)) then old(logs[i]) else []) + FragmentIn(buf)
      ensures events == old(events) + Told(old(files[i]), buf, old(lruCounter))
      ensures !inContract ==> Overfull(files[i])
    {
      var hdrlen, repeat, lot, seqno := buf[0] as int, buf[1] as int, U16(buf, 2), U32(buf, 4);
      var newData;
      i, newData := OpenSlot(lot, buf[8..hdrlen]);
      ghost var f := files[i];
      inContract := TakeFragment(i, seqno, repeat, buf[hdrlen..], newData);
      TwoPartsTold(old(files[i]), buf, old(lruCounter), f, newData, old(events));
    }

    /** process_port for a port of type LOT: besides well-formed packets, only one with
        a truncated header does something: its lot has a slot. */
    method ProcessLot(buf: seq<bv8>) returns (inContract: bool, i: nat)
      requires Valid() && lruCounter < 0xffff_ffff
      modifies files, this`events, this`logs, this`lruCounter
      ensures Valid() && lruCounter <= old(lruCounter) + 1
      ensures Step(old(Shot()), Shot(), buf, i)
      ensures forall j :: 0 <= j < SLOTS && j != i ==> logs[j] == old(logs[j])
      ensures WellFormed(buf) ==>
        (logs[i] ==
         (if Carries(old(files[i]), U16(buf, 2), Header(buf)) then old(logs[i]) else []) + FragmentIn(buf))
      ensures !inContract ==> Overfull(files[i])
    {
      inContract, i := true, 0;
      if |buf| < 8 { return; }
      var hdrlen, repeat, lot, seqno := buf[0] as int, buf[1] as int, U16(buf, 2), U32(buf, 4);
      if hdrlen < 8 || hdrlen > |buf| || seqno >= MAX_FRAGMENTS { return; }
      if 8 < hdrlen < 24 {
        i := Locate(lot);
        return;
      }
      inContract, i := TakePacket(buf);
    }

    ghost function Shot(): Snapshot
      reads this, files
    {
      Snapshot(files[..], logs, events, lruCounter)
    }
  }

  // A packet whose fragment is looked at.
  predicate WellFormed(buf: seq<bv8>) {
    |buf| >= 8 && var hdrlen := buf[0] as int;
      8 <= hdrlen <= |buf| && (hdrlen == 8 || hdrlen >= 24) && U32(buf, 4) < MAX_FRAGMENTS
  }

  // A packet whose header is too short, found out when its lot has its slot.
  predicate ShortHeader(buf: seq<bv8>) {
    |buf| >= 8 && 8 < buf[0] as int < 24 && buf[0] as int <= |buf| && U32(buf, 4) < MAX_FRAGMENTS
  }

  function Header(buf: seq<bv8>): seq<bv8>
    requires WellFormed(buf)
  {
    buf[8..buf[0] as int]
  }

  function FragmentOf(buf: seq<bv8>): Fragment
    requires WellFormed(buf)
  {
    Fragment(U32(buf, 4), buf[buf[0] as int..])
  }

  function FragmentIn(buf: seq<bv8>): seq<Fragment>
    requires WellFormed(buf)
  {
    if |FragmentOf(buf).data| <= FRAGMENT_SIZE then [FragmentOf(buf)] else []
  }

  // The slot already holds the file of a packet of this lot with this header.
  predicate Carries(f: File, lot: nat, header: seq<bv8>)
    requires header == [] || |header| >= 16
  {
    f.timestamp > 0 && f.lot == lot && (header == [] || !Differs(f, InfoOf(header), header[16..]))
  }

  // A packet with this header opens a file or describes it anew.
  predicate Renews(f: File, lot: nat, header: seq<bv8>)
    requires header == [] || |header| >= 16
  {
    header != [] && (!Carries(f, lot, header) || f.name.None?)
  }

  // The slot after the header of a packet.
  function Opened(f: File, lot: nat, header: seq<bv8>, timestamp: nat): File
    requires header == [] || |header| >= 16
  {
    var found := if f.timestamp > 0 && f.lot == lot then f.(timestamp := timestamp) else Blank(timestamp, lot);
    if header == [] then found else Described(found, InfoOf(header), header[16..], timestamp + 1)
  }

  function HeaderTold(f: File, lot: nat, header: seq<bv8>): seq<Event>
    requires header == [] || |header| >= 16
  {
    if Renews(f, lot, header) then [LotHeader(lot, InfoOf(header), NameOf(header[16..]))] else []
  }

  // The slot after a fragment, kept unless it is too long.
  function Offered(f: File, fragment: Fragment): File
    requires fragment.seqno < |f.fragments|
  {
    if |fragment.data| <= FRAGMENT_SIZE then Accept(f, fragment) else f
  }

  function FragmentTold(f: File, fragment: Fragment, repeat: nat, newData: bool): seq<Event>
    requires fragment.seqno < |f.fragments|
  {
    var again, now := f.fragments[fragment.seqno].Some?, Offered(f, fragment);
    if !again && |fragment.data| > FRAGMENT_SIZE then []
    else
      [LotFragment(f.lot, fragment.seqno, repeat, again, fragment.data, now.bytesSoFar)] +
      if (newData || !again) && Complete(now) then [ReportOf(now)] else []
  }

  // The slot after a packet.
  function After(f: File, buf: seq<bv8>, timestamp: nat): File
    requires WellFormed(buf) && (f.timestamp > 0 ==> |f.fragments| == MAX_FRAGMENTS)
  {
    Offered(Opened(f, U16(buf, 2), Header(buf), timestamp), FragmentOf(buf))
  }

  function Now(f: File, buf: seq<bv8>, timestamp: nat): File
    requires f.timestamp > 0 ==> |f.fragments| == MAX_FRAGMENTS
  {
    if WellFormed(buf) then After(f, buf, timestamp)
    else if ShortHeader(buf) then Opened(f, U16(buf, 2), [], timestamp)
    else f
  }

  // What is reported of it.
  function Heard(f: File, buf: seq<bv8>, timestamp: nat): seq<Event>
    requires f.timestamp > 0 ==> |f.fragments| == MAX_FRAGMENTS
  {
    if WellFormed(buf) then Told(f, buf, timestamp) else []
  }

  function Told(f: File, buf: seq<bv8>, timestamp: nat): seq<Event>
    requires WellFormed(buf) && (f.timestamp > 0 ==> |f.fragments| == MAX_FRAGMENTS)
  {
    var lot, header := U16(buf, 2), Header(buf);
    HeaderTold(f, lot, header) +
    FragmentTold(Opened(f, lot, header, timestamp), FragmentOf(buf), buf[1] as int, Renews(f, lot, header))
  }

  lemma TwoPartsTold(f: File, buf: seq<bv8>, timestamp: nat, now: File, newData: bool, es: seq<Event>)
    requires WellFormed(buf) && (f.timestamp > 0 ==> |f.fragments| == MAX_FRAGMENTS)
    requires now == Opened(f, U16(buf, 2), Header(buf), timestamp) && newData == Renews(f, U16(buf, 2), Header(buf))
    ensures es + HeaderTold(f, U16(buf, 2), Header(buf)) + FragmentTold(now, FragmentOf(buf), buf[1] as int, newData)
         == es + Told(f, buf, timestamp)
  {
  }

  predicate Complete(f: File) { f.info.size > 0 && AllThere(f, NumFragments(f.info.size)) }

  // A size beyond the slot, and every fragment of the slot there.
  predicate Overfull(f: File) { NumFragments(f.info.size) > MAX_FRAGMENTS && AllThere(f, MAX_FRAGMENTS) }

  function ReportOf(f: File): Event
    requires Complete(f)
  {
    LotFile(f.lot, f.info, if f.name.Some? then f.name.value else [], Contents(f, NumFragments(f.info.size)))
  }

  // ---------- what is reported, and what is not ----------

  lemma {:induction false} ContentsLength(f: File, log: seq<Fragment>, n: nat)
    requires Keeps(f, log) && f.timestamp > 0 && AllThere(f, n)
    ensures |Contents(f, n)| == n * FRAGMENT_SIZE
  {
    if n > 0 {
      ContentsLength(f, log, n - 1);
      assert Stored(f, log, n - 1);
    }
  }

  lemma AfterKeeps(f: File, log: seq<Fragment>, buf: seq<bv8>, timestamp: nat) returns (kept: seq<Fragment>)
    requires Keeps(f, log) && timestamp > 0 && WellFormed(buf)
    ensures Keeps(After(f, buf, timestamp), kept) && After(f, buf, timestamp).timestamp > 0
  {
    var lot, header := U16(buf, 2), Header(buf);
    NothingYet(timestamp, lot);
    var found, base := Blank(timestamp, lot), [];
    if f.timestamp > 0 && f.lot == lot {
      Retimed(f, log, timestamp);
      found, base := f.(timestamp := timestamp), log;
    }
    if header != [] {
      DescribedKeeps(found, base, InfoOf(header), header[16..], timestamp + 1);
      base := if Differs(found, InfoOf(header), header[16..]) then [] else base;
    }
    OfferedKeeps(Opened(f, lot, header, timestamp), base, FragmentOf(buf));
    kept := base + FragmentIn(buf);
  }

  /** A reported file is the one in the slot, whole and with a name. Its contents cover
      its size exactly when the 32-bit sum does not wrap; where it wraps they are empty. */
  lemma ReportCoversIff(f: File, log: seq<Fragment>, buf: seq<bv8>, timestamp: nat, e: Event)
    requires Keeps(f, log) && timestamp > 0 && WellFormed(buf)
    requires e.LotFile? && e in Told(f, buf, timestamp)
    ensures var now := After(f, buf, timestamp); now.name.Some? && Complete(now) && e == ReportOf(now)
    ensures 0 < e.info.size < 0x1_0000_0000
    ensures |e.contents| >= e.info.size <==> e.info.size + 255 < 0x1_0000_0000
    ensures |e.contents| >= e.info.size <==> e.info.size <= 65536
    ensures |e.contents| < e.info.size ==> e.contents == []
  {
    var now := After(f, buf, timestamp);
    var kept := AfterKeeps(f, log, buf, timestamp);
    assert e == ReportOf(now);
    ContentsLength(now, kept, NumFragments(now.info.size));
    EnoughFragmentsIff(now.info.size);
    FitsIff(now.info.size);
  }

  // The bytes of packet 24, 0, 7, ...: the whole header of an object of lot 7 that
  // claims size octets, without a name, and the fragment that comes with it.
  function Packet(seqno: bv8, size: seq<bv8>, data: seq<bv8>): seq<bv8>
    requires |size| == 4
  {
    [24, 0, 7, 0, seqno, 0, 0, 0] + ([1, 0, 0, 0, 0, 0, 0, 0] + size + [0, 0, 0, 0]) + data
  }

  lemma PacketIs(seqno: bv8, size: seq<bv8>, data: seq<bv8>)
    requires |size| == 4
    ensures var buf := Packet(seqno, size, data);
      && WellFormed(buf) && U16(buf, 2) == 7
      && FragmentOf(buf) == Fragment(seqno as int, data)
      && |Header(buf)| == 16 && InfoOf(Header(buf)).size == U32(size, 0) && NameOf(Header(buf)[16..]) == []
  {
    var buf := Packet(seqno, size, data);
    var h := [1, 0, 0, 0, 0, 0, 0, 0] + size + [0, 0, 0, 0];
    assert Header(buf) == h;
    assert h[8] == size[0] && h[9] == size[1] && h[10] == size[2] && h[11] == size[3];
    assert buf[24..] == data;
  }

  /** One packet whose header claims 0xffff_ff01 octets is all it takes: the file is
      reported with no contents. */
  lemma WrappedReported(data: seq<bv8>)
    requires |data| <= FRAGMENT_SIZE
    ensures var buf, size := Packet(0, [0x01, 0xff, 0xff, 0xff], data), 0xffff_ff01;
      var told := Told(FREE, buf, 1);
      |told| == 3 && told[2].LotFile? && told[2].info.size == size && told[2].contents == []
  {
    PacketIs(0, [0x01, 0xff, 0xff, 0xff], data);
  }

  // The packet describes the file, which is complete, but comes with a fragment that
  // is too long and not there yet.
  predicate Overlooks(f: File, buf: seq<bv8>, timestamp: nat)
    requires f.timestamp > 0 ==> |f.fragments| == MAX_FRAGMENTS
  {
    WellFormed(buf) &&
    var lot, header, fragment := U16(buf, 2), Header(buf), FragmentOf(buf);
    var now := Opened(f, lot, header, timestamp);
    Renews(f, lot, header) && Complete(now) && |fragment.data| > FRAGMENT_SIZE && now.fragments[fragment.seqno].None?
  }

  /** A packet that completes a file has it reported, whether by its header or by its
      fragment, exactly unless it overlooks the file. */
  lemma CompletionToldIff(f: File, log: seq<Fragment>, buf: seq<bv8>, timestamp: nat)
    requires Keeps(f, log) && WellFormed(buf)
    requires Complete(After(f, buf, timestamp)) && !(Carries(f, U16(buf, 2), Header(buf)) && Complete(f))
    ensures ReportOf(After(f, buf, timestamp)) in Told(f, buf, timestamp) <==> !Overlooks(f, buf, timestamp)
    ensures Overlooks(f, buf, timestamp) ==> forall e :: e in Told(f, buf, timestamp) ==> !e.LotFile?
  {
    var lot, header, fragment := U16(buf, 2), Header(buf), FragmentOf(buf);
    var now := Opened(f, lot, header, timestamp);
    if Overlooks(f, buf, timestamp) {
      assert Told(f, buf, timestamp) == HeaderTold(f, lot, header) + [];
    } else if !Renews(f, lot, header) {
      assert now.fragments[fragment.seqno].None?;
    }
  }

  lemma SmallFile()
    ensures U32([1, 0, 0, 0], 0) == 1 && NumFragments(1) == 1
  {
  }

  /** A file of one octet whose first fragment is there is overlooked by a packet with
      its header and 257 bytes of a second fragment. */
  lemma OverlookedFile(octet: bv8, data: seq<bv8>)
    requires |data| == 257
    ensures var f := Accept(Blank(1, 7), Fragment(0, [octet]));
      var buf := Packet(1, [1, 0, 0, 0], data);
      Keeps(f, [Fragment(0, [octet])]) && Overlooks(f, buf, 2)
  {
    NothingYet(1, 7);
    var fragment := Fragment(0, [octet]);
    AcceptKeeps(Blank(1, 7), [], fragment);
    assert [] + [fragment] == [fragment];
    PacketIs(1, [1, 0, 0, 0], data);
    SmallFile();
  }

  // The file, if complete, is among the events.
  predicate Reported(f: File, es: seq<Event>) { f.timestamp > 0 && Complete(f) ==> ReportOf(f) in es }

  /** A slot whose complete file was reported stays so, unless it is overlooked. */
  lemma StaysReported(f: File, log: seq<Fragment>, buf: seq<bv8>, timestamp: nat, es: seq<Event>)
    requires Keeps(f, log) && Reported(f, es) && !Overlooks(f, buf, timestamp)
    ensures Reported(Now(f, buf, timestamp), es + Heard(f, buf, timestamp))
  {
    var now := Now(f, buf, timestamp);
    if WellFormed(buf) && Complete(now) {
      if Carries(f, U16(buf, 2), Header(buf)) && Complete(f) {
        SameContents(f, now, NumFragments(f.info.size));
      } else {
        CompletionToldIff(f, log, buf, timestamp);
      }
    } else if ShortHeader(buf) && Complete(now) {
      SameContents(f, now, NumFragments(f.info.size));
    }
  }

  datatype Snapshot = Snapshot(files: seq<File>, logs: seq<seq<Fragment>>, events: seq<Event>, clock: nat) {
    ghost predicate Kept() {
      |files| == |logs| == SLOTS && forall i :: 0 <= i < SLOTS ==> Keeps(files[i], logs[i])
    }

    // Every complete file was reported.
    predicate AllReported() { forall i :: 0 <= i < |files| ==> Reported(files[i], events) }
  }

  // A packet acts on slot i and on no other.
  ghost predicate Step(s: Snapshot, t: Snapshot, buf: seq<bv8>, i: nat) {
    && s.Kept() && t.Kept() && i < SLOTS
    && t.files == s.files[i := Now(s.files[i], buf, s.clock)]
    && t.events == s.events + Heard(s.files[i], buf, s.clock)
  }

  /** Over any run from a state in which every complete file was reported, every
      complete file is reported, as long as no packet overlooks one. */
  lemma {:induction false} RunReports(run: seq<Snapshot>, bufs: seq<seq<bv8>>, slots: seq<nat>)
    requires |run| == |bufs| + 1 == |slots| + 1
    requires forall k :: 0 <= k < |bufs| ==>
      Step(run[k], run[k + 1], bufs[k], slots[k]) && !Overlooks(run[k].files[slots[k]], bufs[k], run[k].clock)
    requires run[0].AllReported()
    ensures run[|bufs|].AllReported()
  {
    if |bufs| > 0 {
      var n := |bufs| - 1;
      RunReports(run[..n + 1], bufs[..n], slots[..n]);
      var s, t, i := run[n], run[n + 1], slots[n];
      assert Step(s, t, bufs[n], i);
      StaysReported(s.files[i], s.logs[i], bufs[n], s.clock, s.events);
      assert forall j :: 0 <= j < |t.files| && j != i ==> t.files[j] == s.files[j];
    }
  }

  lemma {:induction false} SameContents(f: File, g: File, n: nat)
    requires AllThere(f, n) && AllThere(g, n) && forall k :: 0 <= k < n ==> f.fragments[k] == g.fragments[k]
    ensures Contents(f, n) == Contents(g, n)
  {
    if n > 0 { SameContents(f, g, n - 1); }
  }

  // ---------- reassembly ----------

  // Fragment k of an object.
  function Chunk(whole: seq<bv8>, k: nat): (c: seq<bv8>)
    ensures |c| <= FRAGMENT_SIZE
  {
    var start, end := k * FRAGMENT_SIZE, (k + 1) * FRAGMENT_SIZE;
    if start >= |whole| then [] else if end <= |whole| then whole[start..end] else whole[start..]
  }

  // Only fragments of the object were accepted, in whatever order, however often.
  ghost predicate FragmentsOf(log: seq<Fragment>, whole: seq<bv8>) {
    forall i :: 0 <= i < |log| ==> log[i].data == Chunk(whole, log[i].seqno)
  }

  // The first n fragments, put together.
  function Zeroed(whole: seq<bv8>, n: nat): (z: seq<bv8>)
    ensures |z| == n * FRAGMENT_SIZE
  {
    seq(n * FRAGMENT_SIZE, p requires 0 <= p < n * FRAGMENT_SIZE => if p < |whole| then whole[p] else 0)
  }

  lemma {:induction false} ContentsAre(f: File, log: seq<Fragment>, whole: seq<bv8>, n: nat)
    requires Keeps(f, log) && f.timestamp > 0 && FragmentsOf(log, whole) && AllThere(f, n)
    ensures Contents(f, n) == Zeroed(whole, n)
  {
    if n > 0 {
      ContentsAre(f, log, whole, n - 1);
      assert Stored(f, log, n - 1);
      var i := FirstOf(log, n - 1);
      NextChunk(whole, n - 1);
    } else {
      assert Zeroed(whole, 0) == [];
    }
  }

  lemma NextChunk(whole: seq<bv8>, k: nat)
    ensures Zeroed(whole, k + 1) == Zeroed(whole, k) + Padded(Chunk(whole, k))
  {
    var c, z := Chunk(whole, k), Zeroed(whole, k + 1);
    forall p | 0 <= p < FRAGMENT_SIZE ensures z[k * FRAGMENT_SIZE + p] == Padded(c)[p] {
      if p < |c| { assert Padded(c)[p] == Padded(c)[..|c|][p]; }
    }
  }

  /** Whatever the order and the repetitions in which the fragments of an object
      arrived, a complete slot holds the whole, padded with zeros to whole fragments. */
  lemma Reassembled(f: File, log: seq<Fragment>, whole: seq<bv8>)
    requires Keeps(f, log) && f.timestamp > 0 && FragmentsOf(log, whole)
    requires f.info.size == |whole| <= 65536 && Complete(f)
    ensures var n := NumFragments(|whole|);
      Contents(f, n) == Zeroed(whole, n) && Contents(f, n)[..|whole|] == whole
  {
    EnoughFragmentsIff(|whole|);
    ContentsAre(f, log, whole, NumFragments(|whole|));
  }

  lemma Retimed(f: File, log: seq<Fragment>, timestamp: nat)
    requires Keeps(f, log) && f.timestamp > 0 && timestamp > 0
    ensures Keeps(f.(timestamp := timestamp), log)
  {
    forall k | 0 <= k < MAX_FRAGMENTS ensures Stored(f.(timestamp := timestamp), log, k) { assert Stored(f, log, k); }
  }
}
