/** The layout of a constant database file, as components/constdb/tinycdb.hpp reads it. */
module CdbFile {

  type Byte = b: int | 0 <= b < 256

  const MAX_U32 := 0x1_0000_0000

  const HEADER := 2048

  datatype Record = Record(key: seq<Byte>, val: seq<Byte>)

  /** A 32-bit number, low byte first. */
  function Pack(n: nat): (s: seq<Byte>)
    requires n < MAX_U32
    ensures |s| == 4 && Unpack(s) == n
  {
    var n1 := n / 256;
    var n2 := n1 / 256;
    [n % 256, n1 % 256, n2 % 256, n2 / 256]
  }

  function Unpack(s: seq<Byte>): (n: nat)
    requires |s| == 4
    ensures n < MAX_U32
  {
    (s[0] as int) + 256 * ((s[1] as int) + 256 * ((s[2] as int) + 256 * (s[3] as int)))
  }

  // --- Reading ------------------------------------------------------------------------------

  /** The records of a file; or no valid format; or an entry whose lengths add up to more than
      32 bits, whose bytes are then read past the buffer. */
  datatype Parsed = Records(records: seq<Record>) | Malformed | Overflow

  /** The records in the next left bytes of what remains of a file. */
  function ParseFrom(rest: seq<Byte>, left: nat): Parsed
    decreases left, 1
  {
    if left == 0 then Records([])
    else if left < 8 || |rest| < 8 then Malformed
    else ParseBody(Unpack(rest[..4]), Unpack(rest[4..8]), rest[8..], left - 8)
  }

  function ParseBody(klen: nat, vlen: nat, body: seq<Byte>, left: nat): Parsed
    decreases left + 8, 0
  {
    var elen := (klen + vlen) % MAX_U32;
    if left < elen || |body| < elen then Malformed
    else if klen + vlen != elen then Overflow
    else Prepend(Record(body[..klen], body[klen..elen]), ParseFrom(body[elen..], left - elen))
  }

  function Prepend(r: Record, more: Parsed): Parsed { if more.Records? then Records([r] + more.records) else more }

  function Parse(file: seq<Byte>): Parsed {
    if |file| < HEADER then Malformed
    else
      var eod := Unpack(file[..4]);
      if eod < HEADER then Malformed else ParseFrom(file[HEADER..], eod - HEADER)
  }

  // --- Writing ------------------------------------------------------------------------------

  function Size(rs: seq<Record>): nat { if rs == [] then 0 else 8 + |rs[0].key| + |rs[0].val| + Size(rs[1..]) }

  predicate Fits(rs: seq<Record>) { HEADER + Size(rs) < MAX_U32 }

  function Entry(r: Record, rest: seq<Byte>): seq<Byte>
    requires |r.key| < MAX_U32 && |r.val| < MAX_U32
  {
    Pack(|r.key|) + (Pack(|r.val|) + (r.key + (r.val + rest)))
  }

  /** The records, then the pages of the hash tables. */
  function Entries(rs: seq<Record>, pages: seq<Byte>): seq<Byte>
    requires Fits(rs)
  {
    if rs == [] then pages else Entry(rs[0], Entries(rs[1..], pages))
  }

  /** A whole file: where the records end, the rest of the table of contents, the records and the
      pages. */
  function Serialize(rs: seq<Record>, toc: seq<Byte>, pages: seq<Byte>): seq<Byte>
    requires Fits(rs) && |toc| == HEADER - 4
  {
    Pack(HEADER + Size(rs)) + toc + Entries(rs, pages)
  }

  lemma HeaderParts(a: seq<Byte>, b: seq<Byte>, body: seq<Byte>)
    requires |a| == 4 && |b| == 4
    ensures var s := a + (b + body); s[..4] == a && s[4..8] == b && s[8..] == body
  {
  }

  lemma BodyParts(a: seq<Byte>, b: seq<Byte>, rest: seq<Byte>)
    ensures var body, n := a + (b + rest), |a| + |b|; body[..|a|] == a && body[|a|..n] == b && body[n..] == rest
  {
  }

  lemma {:induction false} ParseBodyParts(r: Record, rest: seq<Byte>, left: nat)
    requires |r.key| + |r.val| < MAX_U32 && |r.key| + |r.val| <= left
    ensures ParseBody(|r.key|, |r.val|, r.key + (r.val + rest), left)
         == Prepend(r, ParseFrom(rest, left - |r.key| - |r.val|))
  {
    BodyParts(r.key, r.val, rest);
  }

  lemma {:induction false} ParseEntry(r: Record, rest: seq<Byte>, left: nat)
    requires |r.key| + |r.val| < MAX_U32 && 8 + |r.key| + |r.val| <= left
    ensures ParseFrom(Entry(r, rest), left) == Prepend(r, ParseFrom(rest, left - 8 - |r.key| - |r.val|))
  {
    HeaderParts(Pack(|r.key|), Pack(|r.val|), r.key + (r.val + rest));
    ParseBodyParts(r, rest, left - 8);
  }

  lemma {:induction false} ParseEntries(rs: seq<Record>, pages: seq<Byte>)
    requires Fits(rs)
    ensures ParseFrom(Entries(rs, pages), Size(rs)) == Records(rs)
  {
    if rs != [] {
      ParseEntries(rs[1..], pages);
      ParseEntry(rs[0], Entries(rs[1..], pages), Size(rs));
      assert [rs[0]] + rs[1..] == rs;
    }
  }

  /** A written file is read as the records it was written from. */
  lemma {:induction false} ParseSerialized(rs: seq<Record>, toc: seq<Byte>, pages: seq<Byte>)
    requires Fits(rs) && |toc| == HEADER - 4
    ensures Parse(Serialize(rs, toc, pages)) == Records(rs)
  {
    var head, entries := Pack(HEADER + Size(rs)), Entries(rs, pages);
    var file := head + toc + entries;
    assert file[..4] == head && file[HEADER..] == entries;
    ParseEntries(rs, pages);
  }

  // --- The layout, byte by byte -------------------------------------------------------------

  /** Four bytes are a number, the first byte counting least. */
  lemma UnpackBytes(s: seq<Byte>)
    requires |s| == 4
    ensures Unpack(s) == s[0] as int + 0x100 * (s[1] as int) + 0x1_0000 * (s[2] as int) + 0x100_0000 * (s[3] as int)
  {
  }

  /** The first four bytes tell where the records end. The first record starts at byte 2048, with the
      lengths of its key and its value in four bytes each, the key and the value. */
  lemma {:induction false} FirstRecordPlace(rs: seq<Record>, toc: seq<Byte>, pages: seq<Byte>)
    requires Fits(rs) && |toc| == 2044 && rs != []
    ensures var file, klen, vlen := Serialize(rs, toc, pages), |rs[0].key|, |rs[0].val|;
      && |file| >= 2056 + klen + vlen
      && Unpack(file[0..4]) == 2048 + Size(rs)
      && Unpack(file[2048..2052]) == klen && Unpack(file[2052..2056]) == vlen
      && file[2056..2056 + klen] == rs[0].key && file[2056 + klen..2056 + klen + vlen] == rs[0].val
  {
    var r := rs[0];
    var head, rest := Pack(HEADER + Size(rs)) + toc, Entries(rs[1..], pages);
    var body := r.key + (r.val + rest);
    var entry := Pack(|r.key|) + (Pack(|r.val|) + body);
    EntryParts(r, rest);
    PartOf(head, entry, 0, 4);
    PartOf(head, entry, 4, 8);
    PartOf(head, entry, 8, 8 + |r.key|);
    PartOf(head, entry, 8 + |r.key|, 8 + |r.key| + |r.val|);
    assert (head + entry)[0..4] == Pack(HEADER + Size(rs));
  }

  lemma {:induction false} EntryParts(r: Record, rest: seq<Byte>)
    requires |r.key| < MAX_U32 && |r.val| < MAX_U32
    ensures var entry, klen, vlen := Entry(r, rest), |r.key|, |r.val|;
      && |entry| >= 8 + klen + vlen
      && entry[0..4] == Pack(klen) && entry[4..8] == Pack(vlen)
      && entry[8..8 + klen] == r.key && entry[8 + klen..8 + klen + vlen] == r.val
  {
    var body := r.key + (r.val + rest);
    HeaderParts(Pack(|r.key|), Pack(|r.val|), body);
    BodyParts(r.key, r.val, rest);
    Rejoin(Pack(|r.key|), Pack(|r.val|), body);
    PartOf(Pack(|r.key|) + Pack(|r.val|), body, 0, |r.key|);
    PartOf(Pack(|r.key|) + Pack(|r.val|), body, |r.key|, |r.key| + |r.val|);
  }

  lemma Rejoin(a: seq<Byte>, b: seq<Byte>, c: seq<Byte>)
    ensures a + (b + c) == (a + b) + c
  {
  }

  lemma PartOf(head: seq<Byte>, s: seq<Byte>, i: nat, j: nat)
    requires i <= j <= |s|
    ensures (head + s)[|head| + i..|head| + j] == s[i..j]
  {
  }

  /** Lengths that add up to 2^32 or more leave fewer bytes to read than they say. */
  lemma {:induction false} OverflowingEntry(klen: nat, vlen: nat, body: seq<Byte>, left: nat)
    requires klen < MAX_U32 && vlen < MAX_U32 && klen + vlen >= 0x1_0000_0000
    ensures ParseFrom(Pack(klen) + (Pack(vlen) + body), left + 8)
         == if klen + vlen - 0x1_0000_0000 <= left && klen + vlen - 0x1_0000_0000 <= |body| then Overflow else Malformed
  {
    HeaderParts(Pack(klen), Pack(vlen), body);
    assert (klen + vlen) % MAX_U32 == klen + vlen - MAX_U32;
  }
}

/** The rewrites of components/constdb/tinycdb.hpp. */
module TinyCdb {
  import opened Options
  import opened CdbFile

  type Key = seq<Byte>

  // --- Records as a map ---------------------------------------------------------------------

  /** The first record with the key. */
  function Lookup(rs: seq<Record>, key: Key): Option<seq<Byte>> {
    if rs == [] then None else if rs[0].key == key then Some(rs[0].val) else Lookup(rs[1..], key)
  }

  function CountKey(rs: seq<Record>, key: Key): nat {
    if rs == [] then 0 else (if rs[0].key == key then 1 else 0) + CountKey(rs[1..], key)
  }

  function Without(rs: seq<Record>, key: Key): seq<Record> {
    if rs == [] then [] else if rs[0].key == key then Without(rs[1..], key) else [rs[0]] + Without(rs[1..], key)
  }

  /** What an update function says to an entry. */
  datatype Decision = Keep | Skip | Refuse

  predicate Refuses(rs: seq<Record>, update: Key -> Decision) {
    rs != [] && (update(rs[0].key) == Refuse || Refuses(rs[1..], update))
  }

  predicate Skips(rs: seq<Record>, update: Key -> Decision) {
    rs != [] && (update(rs[0].key) == Skip || Skips(rs[1..], update))
  }

  /** The records an update function lets pass. */
  function Passed(rs: seq<Record>, update: Key -> Decision): seq<Record> {
    if rs == [] then [] else (if update(rs[0].key) == Keep then [rs[0]] else []) + Passed(rs[1..], update)
  }

  function RefuseKey(key: Key): Key -> Decision { k => if k == key then Refuse else Keep }

  function SkipKey(key: Key): Key -> Decision { k => if k == key then Skip else Keep }

  lemma Rejoin(a: seq<Record>, b: seq<Record>, c: seq<Record>)
    ensures a + (b + c) == (a + b) + c
  {
  }

  lemma {:induction false} PassedAppend(a: seq<Record>, b: seq<Record>, update: Key -> Decision)
    ensures Passed(a + b, update) == Passed(a, update) + Passed(b, update)
    ensures Skips(a + b, update) <==> Skips(a, update) || Skips(b, update)
    ensures Refuses(a + b, update) <==> Refuses(a, update) || Refuses(b, update)
  {
    if a == [] {
      assert a + b == b;
    } else {
      assert (a + b)[1..] == a[1..] + b;
      PassedAppend(a[1..], b, update);
      Rejoin(if update(a[0].key) == Keep then [a[0]] else [], Passed(a[1..], update), Passed(b, update));
    }
  }

  lemma PassedOne(r: Record, update: Key -> Decision)
    ensures Passed([r], update) == if update(r.key) == Keep then [r] else []
    ensures Skips([r], update) <==> update(r.key) == Skip
    ensures Refuses([r], update) <==> update(r.key) == Refuse
  {
    assert [r][1..] == [];
  }

  lemma {:induction false} SizeAppend(a: seq<Record>, b: seq<Record>)
    ensures Size(a + b) == Size(a) + Size(b)
  {
    if a == [] {
      assert a + b == b;
    } else {
      assert (a + b)[1..] == a[1..] + b;
      SizeAppend(a[1..], b);
    }
  }

  /** Skipping a key keeps every other record in order. */
  lemma {:induction false} SkipIsWithout(rs: seq<Record>, key: Key)
    ensures !Refuses(rs, SkipKey(key)) && Passed(rs, SkipKey(key)) == Without(rs, key)
    ensures Skips(rs, SkipKey(key)) <==> Lookup(rs, key).Some?
  {
    if rs != [] {
      SkipIsWithout(rs[1..], key);
      assert [] + Without(rs[1..], key) == Without(rs[1..], key);
    }
  }

  lemma {:induction false} RefuseIsIfPresent(rs: seq<Record>, key: Key)
    ensures Refuses(rs, RefuseKey(key)) <==> Lookup(rs, key).Some?
    ensures Lookup(rs, key).None? ==> Passed(rs, RefuseKey(key)) == rs
  {
    if rs != [] {
      RefuseIsIfPresent(rs[1..], key);
      assert [rs[0]] + rs[1..] == rs;
    }
  }

  function Listed(extra: Option<Record>): seq<Record> { if extra.None? then [] else [extra.value] }

  /** The records of the new database: those the update lets pass, and then the one the finish
      function adds. */
  function Rewritten(rs: seq<Record>, update: Key -> Decision, extra: Option<Record>): seq<Record> {
    Passed(rs, update) + Listed(extra)
  }

  // --- The rewrite --------------------------------------------------------------------------

  type Toc = s: seq<Byte> | |s| == HEADER - 4 witness seq(HEADER - 4, i => 0)

  /** Which calls of the system or of the library fail, and what the library writes beside the records. */
  datatype Env = Env(createFails: bool, openFails: bool, badReads: set<nat>, badAdds: set<nat>, finishFails: bool,
                     renameFails: bool, reopenFails: bool, toc: Toc, pages: seq<Byte>) {

    /** Nothing fails that building a new database of so many records from these does. */
    predicate Builds(rs: seq<Record>, added: nat) {
      && !openFails && !finishFails
      && 0 !in badReads && ReadsClear(rs, HEADER, badReads)
      && forall i | 0 <= i < added :: i !in badAdds
    }

    /** Nothing fails until the new database has taken the place of the old one. */
    predicate Rewrites(rs: seq<Record>, added: nat) { !createFails && Builds(rs, added) && !renameFails }
  }

  /** No bad read is where the two reads of an entry start. */
  predicate ReadsClear(rs: seq<Record>, pos: nat, bad: set<nat>) {
    rs == [] || (pos !in bad && pos + 8 !in bad && ReadsClear(rs[1..], pos + 8 + |rs[0].key| + |rs[0].val|, bad))
  }

  lemma {:induction false} ReadsAppend(a: seq<Record>, b: seq<Record>, pos: nat, bad: set<nat>)
    ensures ReadsClear(a + b, pos, bad) <==> ReadsClear(a, pos, bad) && ReadsClear(b, pos + Size(a), bad)
  {
    if a == [] {
      assert a + b == b;
    } else {
      assert (a + b)[1..] == a[1..] + b;
      ReadsAppend(a[1..], b, pos + 8 + |a[0].key| + |a[0].val|, bad);
    }
  }

  lemma {:induction false} ReadsOfNext(parsed: Parsed, seen: seq<Record>, more: Parsed, bad: set<nat>)
    requires parsed == Joined(seen, more) && more.Records? && more.records != []
    requires ReadsClear(parsed.records, HEADER, bad)
    ensures HEADER + Size(seen) !in bad && HEADER + Size(seen) + 8 !in bad
  {
    ReadsAppend(seen, more.records, HEADER, bad);
  }

  lemma {:induction false} ReadsGrow(seen: seq<Record>, r: Record, bad: set<nat>)
    requires ReadsClear(seen, HEADER, bad)
    requires var pos := HEADER + Size(seen); pos !in bad && pos + 8 !in bad
    ensures ReadsClear(seen + [r], HEADER, bad)
    ensures Size(seen + [r]) == Size(seen) + 8 + |r.key| + |r.val|
  {
    ReadsAppend(seen, [r], HEADER, bad);
    SizeAppend(seen, [r]);
    assert [r][1..] == [];
  }

  /** Failed and NotReopened are both failures to a caller: the second one comes after the rename.
      Undefined is the read past the buffer. */
  datatype Outcome = Done | NotFound | Failed | NotReopened | Undefined

  /** What a faultless rewrite needs to go through. */
  predicate Succeeds(parsed: Parsed, update: Key -> Decision, extra: Option<Record>) {
    parsed.Records? && !Refuses(parsed.records, update) && Fits(Rewritten(parsed.records, update, extra))
  }

  /** What it takes to build the new database: the records, and that nothing fails. */
  predicate WillBuild(parsed: Parsed, update: Key -> Decision, extra: Option<Record>, env: Env) {
    Succeeds(parsed, update, extra) && env.Builds(parsed.records, |Rewritten(parsed.records, update, extra)|)
  }

  function Joined(seen: seq<Record>, more: Parsed): Parsed {
    if more.Records? then Records(seen + more.records) else more
  }

  lemma JoinedPrepend(seen: seq<Record>, r: Record, more: Parsed)
    ensures Joined(seen, Prepend(r, more)) == Joined(seen + [r], more)
  {
    if more.Records? { Rejoin(seen, [r], more.records); }
  }

  /** The state between two turns of the loop: the seen records come before those still to read, and
      nothing has failed. */
  predicate Reading(parsed: Parsed, seen: seq<Record>, more: Parsed, pos: nat,
                    update: Key -> Decision, made: seq<Record>, skipped: bool, env: Env)
  {
    && parsed == Joined(seen, more) && pos == HEADER + Size(seen)
    && !Refuses(seen, update) && made == Passed(seen, update) && skipped == Skips(seen, update) && Fits(made)
    && !env.openFails && 0 !in env.badReads && ReadsClear(seen, HEADER, env.badReads)
    && forall i | 0 <= i < |made| :: i !in env.badAdds
  }

  lemma {:induction false} PassedDecides(parsed: Parsed, seen: seq<Record>, r: Record, more: Parsed,
                                         update: Key -> Decision, made: seq<Record>, extra: Option<Record>)
    requires parsed == Joined(seen, Prepend(r, more)) && made == Passed(seen, update) && parsed.Records?
    ensures update(r.key) == Refuse ==> Refuses(parsed.records, update)
    ensures update(r.key) == Keep ==>
      var made' := Rewritten(parsed.records, update, extra); |made| < |made'| && Size(made + [r]) <= Size(made')
  {
    JoinedPrepend(seen, r, more);
    PassedAppend(seen, [r], update);
    PassedOne(r, update);
    PassedAppend(seen + [r], more.records, update);
    SizeAppend(Passed(seen + [r], update), Passed(more.records, update));
    SizeAppend(Passed(parsed.records, update), Listed(extra));
  }

  /** One turn: the decision on an entry moves it to the seen ones, or settles the whole rewrite. */
  lemma {:induction false} ReadOne(parsed: Parsed, seen: seq<Record>, r: Record, more: Parsed, pos: nat,
                                   update: Key -> Decision, made: seq<Record>, skipped: bool,
                                   extra: Option<Record>, env: Env)
    requires Reading(parsed, seen, Prepend(r, more), pos, update, made, skipped, env)
    requires pos !in env.badReads && pos + 8 !in env.badReads
    ensures var u, pos' := update(r.key), pos + 8 + |r.key| + |r.val|;
            if u == Refuse || (u == Keep && (|made| in env.badAdds || !Fits(made + [r])))
            then !WillBuild(parsed, update, extra, env)
            else Reading(parsed, seen + [r], more, pos', update, if u == Keep then made + [r] else made,
                         skipped || u == Skip, env)
  {
    if parsed.Records? { PassedDecides(parsed, seen, r, more, update, made, extra); }
    JoinedPrepend(seen, r, more);
    PassedAppend(seen, [r], update);
    PassedOne(r, update);
    ReadsGrow(seen, r, env.badReads);
  }

  /** An entry that cannot be read settles it too. */
  lemma {:induction false} ReadNone(parsed: Parsed, seen: seq<Record>, more: Parsed, pos: nat,
                                    update: Key -> Decision, made: seq<Record>, skipped: bool,
                                    extra: Option<Record>, env: Env)
    requires Reading(parsed, seen, more, pos, update, made, skipped, env)
    requires more.Records? ==> more.records != [] && (pos in env.badReads || pos + 8 in env.badReads)
    ensures !WillBuild(parsed, update, extra, env) && (more.Overflow? ==> parsed.Overflow?)
  {
    if more.Records? && ReadsClear(parsed.records, HEADER, env.badReads) {
      ReadsOfNext(parsed, seen, more, env.badReads);
    }
  }

  lemma {:induction false} ReadAll(parsed: Parsed, seen: seq<Record>, pos: nat, update: Key -> Decision,
                                   made: seq<Record>, skipped: bool, extra: Option<Record>, env: Env)
    requires Reading(parsed, seen, Records([]), pos, update, made, skipped, env)
    ensures parsed.Records? && skipped == Skips(parsed.records, update)
    ensures Rewritten(parsed.records, update, extra) == made + Listed(extra)
    ensures WillBuild(parsed, update, extra, env) <==>
      && Fits(made + Listed(extra)) && (forall i | 0 <= i < |made + Listed(extra)| :: i !in env.badAdds)
      && !env.finishFails
  {
    assert seen + [] == seen;
    assert made + [] == made;
  }

  /** The next entry of what remains of a file, and where the file goes on. */
  method ReadEntry(rest: seq<Byte>, pos: nat, eod: nat, env: Env)
    returns (r: Outcome, entry: Record, rest': seq<Byte>, pos': nat)
    requires pos < eod
    ensures r.Done? || r.Failed? || r.Undefined?
    ensures r.Done? ==>
      && pos' == pos + 8 + |entry.key| + |entry.val| <= eod
      && ParseFrom(rest, eod - pos) == Prepend(entry, ParseFrom(rest', eod - pos'))
      && pos !in env.badReads && pos + 8 !in env.badReads
    ensures r.Undefined? ==> ParseFrom(rest, eod - pos).Overflow?
    ensures r.Failed? ==> ParseFrom(rest, eod - pos).Malformed? || pos in env.badReads || pos + 8 in env.badReads
    ensures var parsed := ParseFrom(rest, eod - pos); parsed.Records? ==> parsed.records != []
  {
    r, entry, rest', pos' := Failed, Record([], []), rest, pos;
    if eod - pos' < 8 { return; }
    if pos' in env.badReads || |rest'| < 8 { return; }
    var klen, vlen := Unpack(rest'[..4]), Unpack(rest'[4..8]);
    pos', rest' := pos' + 8, rest'[8..];
    var elen := (klen + vlen) % MAX_U32;
    if eod - pos' < elen { return; }
    if pos' in env.badReads || |rest'| < elen { return; }
    if klen + vlen != elen { return Undefined, entry, rest', pos'; }
    entry := Record(rest'[..klen], rest'[klen..elen]);
    pos', rest' := pos' + elen, rest'[elen..];
    r := Done;
  }

  /** Calls the finish function, and ends the new database. */
  method Finish(made: seq<Record>, extra: Option<Record>, env: Env) returns (r: Outcome, made': seq<Record>)
    requires Fits(made) && forall i | 0 <= i < |made| :: i !in env.badAdds
    ensures r.Done? || r.Failed?
    ensures r.Done? <==> Fits(made + Listed(extra)) && (forall i | 0 <= i < |made + Listed(extra)| :: i !in env.badAdds)
                         && !env.finishFails
    ensures r.Done? ==> made' == made + Listed(extra)
  {
    r, made' := Failed, made;
    assert made + [] == made;
    if extra.Some? {
      if |made| in env.badAdds || !Fits(made + [extra.value]) { return; }
      made' := made + [extra.value];
    }
    if env.finishFails { return; }
    r := Done;
  }

  class TinyCDB {
    var file: seq<Byte>

    constructor (file: seq<Byte>)
      ensures this.file == file
    {
      this.file := file;
    }

    /** Reads the entries one after another and adds those the update function lets pass, then
        the one of the finish function. */
    method Build(update: Key -> Decision, extra: Option<Record>, env: Env)
      returns (r: Outcome, made: seq<Record>, skipped: bool)
      ensures r.Done? || r.Failed? || r.Undefined?
      ensures r.Done? <==> WillBuild(Parse(file), update, extra, env)
      ensures r.Done? ==>
        made == Rewritten(Parse(file).records, update, extra) && skipped == Skips(Parse(file).records, update)
      ensures r.Undefined? ==> Parse(file).Overflow?
    {
      r, made, skipped := Failed, [], false;
      if env.openFails { return; }
      if 0 in env.badReads || |file| < HEADER { return; }
      var pos, eod, rest := HEADER, Unpack(file[..4]), file[HEADER..];
      ghost var seen, parsed: Parsed := [], Parse(file);
      while pos < eod
        invariant HEADER <= pos && (eod < HEADER ==> pos == HEADER) && (HEADER <= eod ==> pos <= eod)
        invariant HEADER <= eod ==> Reading(parsed, seen, ParseFrom(rest, eod - pos), pos, update, made, skipped, env)
        decreases eod - pos
      {
        ghost var more := ParseFrom(rest, eod - pos);
        var read, entry, rest', pos' := ReadEntry(rest, pos, eod, env);
        if read != Done {
          ReadNone(parsed, seen, more, pos, update, made, skipped, extra, env);
          return read, made, skipped;
        }
        ReadOne(parsed, seen, entry, ParseFrom(rest', eod - pos'), pos, update, made, skipped, extra, env);
        rest, pos := rest', pos';
        var u := update(entry.key);
        if u == Refuse { return; }
        seen := seen + [entry];
        if u == Skip {
          skipped := true;
          continue;
        }
        if |made| in env.badAdds || !Fits(made + [entry]) { return; }
        made := made + [entry];
      }
      if pos != eod { return; }
      ReadAll(parsed, seen, pos, update, made, skipped, extra, env);
      r, made := Finish(made, extra, env);
    }

    /** Builds a new database and renames it over the old one. */
    method Rewrite(update: Key -> Decision, extra: Option<Record>, env: Env) returns (r: Outcome, skipped: bool)
      modifies this
      ensures !r.NotFound?
      ensures r.Done? || r.NotReopened? <==>
        && Succeeds(Parse(old(file)), update, extra)
        && env.Rewrites(Parse(old(file)).records, |Rewritten(Parse(old(file)).records, update, extra)|)
      ensures r.Done? || r.NotReopened? ==>
        && Parse(file) == Records(Rewritten(Parse(old(file)).records, update, extra))
        && skipped == Skips(Parse(old(file)).records, update)
      ensures r.Failed? || r.Undefined? ==> file == old(file)
      ensures r.Undefined? ==> Parse(old(file)).Overflow?
      ensures (r.NotReopened? ==> env.reopenFails) && (r.Done? ==> !env.reopenFails)
    {
      if env.createFails { return Failed, false; }
      var made;
      r, made, skipped := Build(update, extra, env);
      if !r.Done? { return; }
      if env.renameFails { return Failed, skipped; }
      ParseSerialized(made, env.toc, env.pages);
      file := Serialize(made, env.toc, env.pages);
      if env.reopenFails { r := NotReopened; }
    }

    /** Adds a new key. */
    method Post(key: Key, val: seq<Byte>, env: Env) returns (r: Outcome)
      requires Parse(file).Records?
      modifies this
      ensures r.Done? || r.Failed? || r.NotReopened?
      ensures r.Done? || r.NotReopened? ==> Parse(file) == Records(Parse(old(file)).records + [Record(key, val)])
      ensures r.Failed? ==> file == old(file)
      ensures (r.NotReopened? ==> env.reopenFails) && (r.Done? ==> !env.reopenFails)
      ensures var rs := Parse(old(file)).records;
              !r.Failed? <==> Lookup(rs, key).None? && Fits(rs + [Record(key, val)]) && env.Rewrites(rs, |rs| + 1)
    {
      RefuseIsIfPresent(Parse(file).records, key);
      var skipped;
      r, skipped := Rewrite(RefuseKey(key), Some(Record(key, val)), env);
    }

    /** The library seeks the first record with the key. */
    method Get(key: Key, env: Env) returns (r: Outcome, val: seq<Byte>)
      requires Parse(file).Records?
      ensures r.Failed? <==> env.openFails
      ensures r.Done? ==> Lookup(Parse(file).records, key) == Some(val)
      ensures r.Done? || r.Failed? || (r.NotFound? && Lookup(Parse(file).records, key).None?)
    {
      if env.openFails { return Failed, []; }
      match Lookup(Parse(file).records, key)
      case None => r, val := NotFound, [];
      case Some(v) => r, val := Done, v;
    }

    /** Sets a key: its records go, and the new one comes last. */
    method Put(key: Key, val: seq<Byte>, env: Env) returns (r: Outcome)
      requires Parse(file).Records?
      modifies this
      ensures r.Done? || r.Failed? || r.NotReopened?
      ensures r.Done? || r.NotReopened? ==>
        Parse(file) == Records(Without(Parse(old(file)).records, key) + [Record(key, val)])
      ensures r.Failed? ==> file == old(file)
      ensures (r.NotReopened? ==> env.reopenFails) && (r.Done? ==> !env.reopenFails)
      ensures var rs, rs' := Parse(old(file)).records, Without(Parse(old(file)).records, key) + [Record(key, val)];
              !r.Failed? <==> Fits(rs') && env.Rewrites(rs, |rs'|)
    {
      SkipIsWithout(Parse(file).records, key);
      var skipped;
      r, skipped := Rewrite(SkipKey(key), Some(Record(key, val)), env);
    }

    /** Removes a key. The file is rewritten even when the key is not found. */
    method Del(key: Key, env: Env) returns (r: Outcome)
      requires Parse(file).Records?
      modifies this
      ensures !r.Undefined?
      ensures r.Done? ==> Lookup(Parse(old(file)).records, key).Some?
      ensures r.NotFound? ==> Lookup(Parse(old(file)).records, key).None? && Parse(file) == Parse(old(file))
      ensures r.Done? || r.NotFound? || r.NotReopened? ==>
        Parse(file) == Records(Without(Parse(old(file)).records, key))
      ensures r.Failed? ==> file == old(file)
      ensures (r.NotReopened? ==> env.reopenFails) && (r.Done? || r.NotFound? ==> !env.reopenFails)
      ensures var rs, rs' := Parse(old(file)).records, Without(Parse(old(file)).records, key);
              !r.Failed? <==> Fits(rs') && env.Rewrites(rs, |rs'|)
    {
      var rs := Parse(file).records;
      SkipIsWithout(rs, key);
      WithoutIsSmaller(rs, key);
      WithoutAbsent(rs, key);
      assert Rewritten(rs, SkipKey(key), None) == Without(rs, key);
      var found;
      r, found := Rewrite(SkipKey(key), None, env);
      if r.Done? && !found { r := NotFound; }
    }
  }

  /** A put into any database with room for its record fails when only the reopening fails, and yet the
      new value is the one read afterwards. */
  method FailedPutIsRead(db: TinyCDB, key: Key, val: seq<Byte>, env: Env, later: Env)
    returns (r: Outcome, found: Outcome, read: seq<Byte>)
    requires Parse(db.file).Records? && Fits(Without(Parse(db.file).records, key) + [Record(key, val)])
    requires env.Rewrites(Parse(db.file).records, |Without(Parse(db.file).records, key)| + 1)
    requires env.reopenFails && !later.openFails
    modifies db
    ensures r.NotReopened? && found.Done? && read == val
  {
    ghost var rs := Parse(db.file).records;
    r := db.Put(key, val, env);
    LookupWithout(rs, key, key);
    LookupAppend(Without(rs, key), Record(key, val), key);
    found, read := db.Get(key, later);
  }

  // --- Records as a map ---------------------------------------------------------------------

  lemma {:induction false} WithoutIsSmaller(rs: seq<Record>, key: Key)
    ensures Size(Without(rs, key)) <= Size(rs)
  {
    if rs != [] {
      WithoutIsSmaller(rs[1..], key);
      assert ([rs[0]] + Without(rs[1..], key))[1..] == Without(rs[1..], key);
    }
  }

  lemma {:induction false} LookupAppend(rs: seq<Record>, r: Record, key: Key)
    ensures Lookup(rs + [r], key)
         == if Lookup(rs, key).Some? then Lookup(rs, key) else if r.key == key then Some(r.val) else None
    ensures CountKey(rs + [r], key) == CountKey(rs, key) + if r.key == key then 1 else 0
  {
    if rs == [] {
      assert [r][1..] == [];
      assert rs + [r] == [r];
    } else {
      assert (rs + [r])[1..] == rs[1..] + [r];
      LookupAppend(rs[1..], r, key);
    }
  }

  lemma {:induction false} LookupWithout(rs: seq<Record>, key: Key, other: Key)
    ensures Lookup(Without(rs, key), other) == if other == key then None else Lookup(rs, other)
    ensures CountKey(Without(rs, key), other) == if other == key then 0 else CountKey(rs, other)
  {
    if rs != [] {
      LookupWithout(rs[1..], key, other);
      if rs[0].key != key { assert ([rs[0]] + Without(rs[1..], key))[1..] == Without(rs[1..], key); }
    }
  }

  datatype Request = PostRequest(key: Key, val: seq<Byte>) | PutRequest(key: Key, val: seq<Byte>) | DelRequest(key: Key)

  /** What a request that goes through does to the records. */
  function Apply(rs: seq<Record>, q: Request): seq<Record> {
    match q
    case PostRequest(key, val) => if Lookup(rs, key).Some? then rs else rs + [Record(key, val)]
    case PutRequest(key, val) => Without(rs, key) + [Record(key, val)]
    case DelRequest(key) => Without(rs, key)
  }

  /** What it does to a map. */
  function ApplyToMap(m: map<Key, seq<Byte>>, q: Request): map<Key, seq<Byte>> {
    match q
    case PostRequest(key, val) => if key in m then m else m[key := val]
    case PutRequest(key, val) => m[key := val]
    case DelRequest(key) => m - {key}
  }

  /** A put leaves exactly one record of its key, even where there were several, and keeps the
      others in order. */
  lemma {:induction false} PutLeavesOne(rs: seq<Record>, key: Key, val: seq<Byte>)
    ensures var rs' := Apply(rs, PutRequest(key, val));
            CountKey(rs', key) == 1 && Lookup(rs', key) == Some(val) && Without(rs', key) == Without(rs, key)
  {
    LookupWithout(rs, key, key);
    LookupAppend(Without(rs, key), Record(key, val), key);
    WithoutAppend(Without(rs, key), Record(key, val));
    WithoutAbsent(Without(rs, key), key);
  }

  lemma {:induction false} WithoutAppend(rs: seq<Record>, r: Record)
    ensures Without(rs + [r], r.key) == Without(rs, r.key)
  {
    if rs == [] {
      assert rs + [r] == [r] && [r][1..] == [];
    } else {
      assert (rs + [r])[1..] == rs[1..] + [r];
      WithoutAppend(rs[1..], r);
    }
  }

  lemma {:induction false} WithoutAbsent(rs: seq<Record>, key: Key)
    ensures Lookup(rs, key).None? ==> Without(rs, key) == rs
  {
    if rs != [] {
      WithoutAbsent(rs[1..], key);
      assert [rs[0]] + rs[1..] == rs;
    }
  }

  /** The records are the map: a lookup finds what the map holds, and each key has one record. */
  ghost predicate Represents(rs: seq<Record>, m: map<Key, seq<Byte>>) {
    forall key :: RepresentsAt(rs, m, key)
  }

  predicate RepresentsAt(rs: seq<Record>, m: map<Key, seq<Byte>>, key: Key) {
    && Lookup(rs, key) == (if key in m then Some(m[key]) else None)
    && CountKey(rs, key) == if key in m then 1 else 0
  }

  /** A request acts on the records as on the map. */
  lemma {:induction false} ApplyRefines(rs: seq<Record>, m: map<Key, seq<Byte>>, q: Request)
    requires Represents(rs, m)
    ensures Represents(Apply(rs, q), ApplyToMap(m, q))
  {
    forall key ensures RepresentsAt(Apply(rs, q), ApplyToMap(m, q), key) {
      assert RepresentsAt(rs, m, key) && RepresentsAt(rs, m, q.key);
      match q
      case PostRequest(k, val) => LookupAppend(rs, Record(k, val), key);
      case PutRequest(k, val) =>
        LookupWithout(rs, k, key);
        LookupAppend(Without(rs, k), Record(k, val), key);
      case DelRequest(k) => LookupWithout(rs, k, key);
    }
  }

  /** Whether an outcome left its request's effect. */
  predicate TookEffect(r: Outcome) { r.Done? || r.NotFound? || r.NotReopened? }

  method Serve(db: TinyCDB, q: Request, env: Env) returns (r: Outcome)
    requires Parse(db.file).Records?
    modifies db
    ensures !r.Undefined?
    ensures !TookEffect(r) ==> db.file == old(db.file)
    ensures TookEffect(r) ==> Parse(db.file) == Records(Apply(Parse(old(db.file)).records, q))
  {
    match q
    case PostRequest(key, val) => r := db.Post(key, val, env);
    case PutRequest(key, val) => r := db.Put(key, val, env);
    case DelRequest(key) => r := db.Del(key, env);
  }

  /** The map after a run: requests without effect leave it alone. */
  function MapAfter(m: map<Key, seq<Byte>>, qs: seq<Request>, rs: seq<Outcome>): map<Key, seq<Byte>>
    requires |qs| == |rs|
    decreases |qs|
  {
    if qs == [] then m else MapAfter(if TookEffect(rs[0]) then ApplyToMap(m, qs[0]) else m, qs[1..], rs[1..])
  }

  /** Over every run, whatever fails, the file stays well formed and is the map. */
  method ServeAll(db: TinyCDB, qs: seq<Request>, envs: seq<Env>, ghost m: map<Key, seq<Byte>>)
    returns (rs: seq<Outcome>)
    requires |envs| == |qs|
    requires Parse(db.file).Records? && Represents(Parse(db.file).records, m)
    modifies db
    ensures |rs| == |qs| && Parse(db.file).Records?
    ensures Represents(Parse(db.file).records, MapAfter(m, qs, rs))
    decreases |qs|
  {
    if qs == [] { return []; }
    var r := Serve(db, qs[0], envs[0]);
    ApplyRefines(Parse(old(db.file)).records, m, qs[0]);
    var more := ServeAll(db, qs[1..], envs[1..], if TookEffect(r) then ApplyToMap(m, qs[0]) else m);
    rs := [r] + more;
    assert rs[1..] == more;
  }
}
