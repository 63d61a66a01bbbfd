// HPM3 archive framing (internal/backup/stream.go, lines 130-251 and 305-411), on decrypted bytes.
module Hpm3 {
  import opened SharedTypes

  type byte = x: int | 0 <= x < 256
  type Bytes = seq<byte>

  const MAGIC: Bytes := [0x48, 0x50, 0x4d, 0x33, 0x0a]
  const FORMAT := 3
  const MAX_HEADER := 0x100000
  const MAX_NAME := 4096
  const HOME: Bytes := [0x68, 0x6f, 0x6d, 0x65]

  datatype Manifest = Manifest(version: int, expected: seq<Bytes>, rest: Bytes)

  // Manifest text and digests come from libraries: any functions with these two properties.
  datatype Library = Library(marshal: Manifest -> Bytes, unmarshal: Bytes -> Option<Manifest>, sha256: Bytes -> Bytes)

  ghost predicate Sound(lib: Library) {
    (forall m :: lib.unmarshal(lib.marshal(m)) == Some(m)) &&
    (forall b :: |lib.sha256(b)| == 32)
  }

  // ---------- big-endian numbers ----------

  function Pow256(k: nat): (r: nat)
    ensures r > 0
  {
    if k == 0 then 1 else 256 * Pow256(k - 1)
  }

  // The low k bytes of n, most significant first.
  function BigEndian(n: nat, k: nat): (r: Bytes)
    ensures |r| == k
    decreases k
  {
    if k == 0 then [] else BigEndian(n / 256, k - 1) + [n % 256]
  }

  function Number(b: Bytes): (n: nat)
    decreases |b|
  {
    if b == [] then 0 else 256 * Number(b[..|b| - 1]) + b[|b| - 1]
  }

  lemma {:induction false} NumberOfBigEndian(n: nat, k: nat)
    requires n < Pow256(k)
    ensures Number(BigEndian(n, k)) == n
    decreases k
  {
    if k > 0 {
      NumberOfBigEndian(n / 256, k - 1);
      assert BigEndian(n, k)[..k - 1] == BigEndian(n / 256, k - 1);
    }
  }

  lemma {:induction false} BigEndianOfNumber(b: Bytes)
    ensures Number(b) < Pow256(|b|) && BigEndian(Number(b), |b|) == b
    decreases |b|
  {
    if b != [] {
      BigEndianOfNumber(b[..|b| - 1]);
      assert b == b[..|b| - 1] + [b[|b| - 1]];
    }
  }

  lemma Powers()
    ensures Pow256(4) == 0x1_0000_0000 && Pow256(8) == 0x1_0000_0000_0000_0000
  {
    assert Pow256(2) == 0x1_0000;
    assert Pow256(4) == 0x1_0000_0000;
    assert Pow256(6) == 0x1_0000_0000_0000;
  }

  // ---------- frames ----------

  // What LimitReader(r, int64(size)) lets through: a size of 2^63 or more is negative as an int64.
  function Limit(size: nat): nat {
    if size < 0x8000_0000_0000_0000 then size else 0
  }

  // A size field and the bytes that follow it.
  datatype Image = Image(size: nat, body: Bytes)

  ghost predicate WellSized(image: Image) {
    image.size < Pow256(8) && |image.body| == Limit(image.size)
  }

  function NameBytes(name: Bytes): Bytes {
    BigEndian(|name|, 4) + name
  }

  function FrameBytes(lib: Library, name: Bytes, image: Image): Bytes {
    NameBytes(name) + BigEndian(image.size, 8) + image.body + lib.sha256(image.body)
  }

  function Join(lib: Library, names: seq<Bytes>, images: seq<Image>): Bytes
    requires |names| == |images|
  {
    if names == [] then [] else FrameBytes(lib, names[0], images[0]) + Join(lib, names[1..], images[1..])
  }

  // ---------- the reader as a function ----------

  datatype Cursor = Cursor(plain: Bytes, index: nat, seen: set<Bytes>)

  datatype Step =
    | Eof(at: Cursor)                                              // nextFrame returned io.EOF
    | Fail                                                         // any other error
    | Frame(name: Bytes, body: Bytes, clean: bool, at: Cursor)     // a component; not clean: its digest failed

  // The size field, the body and the digest of a frame whose name has been accepted.
  function BodyStep(lib: Library, name: Bytes, at: Cursor): Step {
    if at.plain == [] then Eof(at)
    else if |at.plain| < 8 then Fail
    else
      var n := Limit(Number(at.plain[..8]));
      var r := at.plain[8..];
      if |r| <= n then Frame(name, r, true, at.(plain := []))     // io.EOF where the digest should be
      else if |r| - n < 32 then Frame(name, r[..n], false, at.(plain := []))
      else Frame(name, r[..n], r[n..n + 32] == lib.sha256(r[..n]), at.(plain := r[n + 32..]))
  }

  function NextStep(lib: Library, expected: seq<Bytes>, c: Cursor): Step {
    if c.plain == [] then Eof(c)
    else if |c.plain| < 4 then Fail
    else
      var nameLen := Number(c.plain[..4]);
      var p := c.plain[4..];
      if nameLen == 0 || nameLen > MAX_NAME then Fail
      else if p == [] then Eof(c.(plain := []))
      else if |p| < nameLen then Fail
      else
        var name := p[..nameLen];
        if name in c.seen then Fail
        else if c.index >= |expected| || expected[c.index] != name then Fail
        else BodyStep(lib, name, Cursor(p[nameLen..], c.index + 1, c.seen + {name}))
  }

  // The whole of Each: whether it ends without error, and the calls it made.
  datatype Outcome = Outcome(ok: bool, calls: seq<(Bytes, Bytes)>)

  lemma StepShrinks(lib: Library, expected: seq<Bytes>, c: Cursor)
    ensures NextStep(lib, expected, c).Frame? ==> |NextStep(lib, expected, c).at.plain| < |c.plain|
  {
  }

  function Reading(lib: Library, expected: seq<Bytes>, c: Cursor, fn: (Bytes, Bytes) -> bool): Outcome
    decreases |c.plain|
  {
    StepShrinks(lib, expected, c);
    match NextStep(lib, expected, c)
    case Eof(at) => Outcome(at.index >= |expected|, [])
    case Fail => Outcome(false, [])
    case Frame(name, body, clean, at) =>
      if fn(name, body) && clean then
        var rest := Reading(lib, expected, at, fn);
        Outcome(rest.ok, [(name, body)] + rest.calls)
      else Outcome(false, [(name, body)])
  }

  // The outcome of a run that has already made some calls.
  function Prepend(calls: seq<(Bytes, Bytes)>, o: Outcome): Outcome {
    Outcome(o.ok, calls + o.calls)
  }

  lemma PrependNothing(o: Outcome)
    ensures Prepend([], o) == o
  {
  }

  lemma ReadingStep(lib: Library, expected: seq<Bytes>, c: Cursor, fn: (Bytes, Bytes) -> bool, calls: seq<(Bytes, Bytes)>)
    ensures Prepend(calls, Reading(lib, expected, c, fn)) ==
      match NextStep(lib, expected, c)
      case Eof(at) => Outcome(at.index >= |expected|, calls)
      case Fail => Outcome(false, calls)
      case Frame(name, body, clean, at) =>
        if fn(name, body) && clean then Prepend(calls + [(name, body)], Reading(lib, expected, at, fn))
        else Outcome(false, calls + [(name, body)])
  {
    hide NextStep;
    StepShrinks(lib, expected, c);
    var s := NextStep(lib, expected, c);
    if s.Frame? {
      var rest := Reading(lib, expected, s.at, fn).calls;
      assert calls + ([(s.name, s.body)] + rest) == calls + [(s.name, s.body)] + rest;
    } else {
      assert calls + [] == calls;
    }
  }

  // ---------- the archive reader ----------

  lemma DigestAfterBody(rest: Bytes, n: nat)
    ensures n + 32 <= |rest| ==> rest[n..][..32] == rest[n..n + 32] && rest[n..][32..] == rest[n + 32..]
  {
  }

  datatype ReadResult = Full(data: Bytes) | NothingLeft | CutShort

  class ArchiveReader {
    const lib: Library
    const manifest: Manifest
    var plain: Bytes
    var seen: set<Bytes>
    var index: nat

    constructor (lib: Library, manifest: Manifest, plain: Bytes)
      ensures this.lib == lib && this.manifest == manifest
      ensures At() == Cursor(plain, 0, {})
    {
      this.lib, this.manifest, this.plain := lib, manifest, plain;
      this.seen, this.index := {}, 0;
    }

    function At(): Cursor
      reads this
    {
      Cursor(plain, index, seen)
    }

    // io.ReadFull: io.EOF only when nothing at all could be read.
    method ReadFull(n: nat) returns (r: ReadResult)
      requires n > 0
      modifies this`plain
      ensures old(plain) == [] ==> r == NothingLeft && plain == []
      ensures 0 < |old(plain)| < n ==> r == CutShort && plain == []
      ensures n <= |old(plain)| ==> r == Full(old(plain)[..n]) && plain == old(plain)[n..]
    {
      if plain == [] {
        r := NothingLeft;
      } else if |plain| < n {
        r := CutShort;
        plain := [];
      } else {
        r := Full(plain[..n]);
        plain := plain[n..];
      }
    }

    method ReadBody(name: Bytes) returns (s: Step)
      modifies this`plain
      ensures s == BodyStep(lib, name, old(At()))
      ensures !s.Fail? ==> At() == s.at
    {
      hide Number, Limit;
      var sizeRaw := ReadFull(8);
      if sizeRaw.NothingLeft? {
        return Eof(At());
      } else if sizeRaw.CutShort? {
        return Fail;
      }
      var limit := Limit(Number(sizeRaw.data));
      ghost var rest := plain;
      var body;
      if limit <= |plain| {
        body := plain[..limit];
        plain := plain[limit..];
      } else {
        body := plain;
        plain := [];
      }
      DigestAfterBody(rest, limit);
      var sum := ReadFull(32);
      match sum
      case NothingLeft => return Frame(name, body, true, At());
      case CutShort => return Frame(name, body, false, At());
      case Full(digest) => return Frame(name, body, digest == lib.sha256(body), At());
    }

    method NextFrame() returns (s: Step)
      modifies this
      ensures s == NextStep(lib, manifest.expected, old(At()))
      ensures !s.Fail? ==> At() == s.at
      ensures old(index) <= |manifest.expected| ==> index <= |manifest.expected|
    {
      var head := ReadFull(4);
      if head.NothingLeft? {
        return Eof(At());
      } else if head.CutShort? {
        return Fail;
      }
      var nameLen := Number(head.data);
      if nameLen == 0 || nameLen > MAX_NAME {
        return Fail;
      }
      var nameRaw := ReadFull(nameLen);
      if nameRaw.NothingLeft? {
        return Eof(At());
      } else if nameRaw.CutShort? {
        return Fail;
      }
      var name := nameRaw.data;
      if name in seen {
        return Fail;
      }
      seen := seen + {name};
      if index >= |manifest.expected| || manifest.expected[index] != name {
        return Fail;
      }
      index := index + 1;
      s := ReadBody(name);
    }

    // Calls fn once per component; `calls` records the calls.
    method Each(fn: (Bytes, Bytes) -> bool) returns (ok: bool, calls: seq<(Bytes, Bytes)>)
      requires index <= |manifest.expected|
      modifies this
      ensures Outcome(ok, calls) == Reading(lib, manifest.expected, old(At()), fn)
      ensures ok ==> index == |manifest.expected|
    {
      hide NextStep, Reading, Prepend;
      calls := [];
      ghost var start := At();
      PrependNothing(Reading(lib, manifest.expected, start, fn));
      while true
        invariant index <= |manifest.expected|
        invariant Reading(lib, manifest.expected, start, fn) == Prepend(calls, Reading(lib, manifest.expected, At(), fn))
        decreases |plain|
      {
        ghost var before := At();
        StepShrinks(lib, manifest.expected, before);
        ReadingStep(lib, manifest.expected, before, fn, calls);
        var s := NextFrame();
        if s.Eof? {
          return index >= |manifest.expected|, calls;
        }
        if s.Fail? {
          return false, calls;
        }
        calls := calls + [(s.name, s.body)];
        if !fn(s.name, s.body) {
          return false, calls;
        }
        if !s.clean {
          return false, calls;
        }
      }
    }
  }

  // ---------- exactly which byte strings are accepted ----------

  function Pairs(names: seq<Bytes>, images: seq<Image>): (r: seq<(Bytes, Bytes)>)
    requires |names| == |images|
    ensures |r| == |names|
    ensures forall i :: 0 <= i < |names| ==> r[i] == (names[i], images[i].body)
  {
    seq(|names|, i requires 0 <= i < |names| => (names[i], images[i].body))
  }

  predicate GoodName(name: Bytes) {
    0 < |name| <= MAX_NAME
  }

  ghost predicate GoodNames(names: seq<Bytes>, seen: set<Bytes>) {
    (forall i :: 0 <= i < |names| ==> GoodName(names[i]) && names[i] !in seen) &&
    (forall i, j :: 0 <= i < j < |names| ==> names[i] != names[j])
  }

  ghost predicate AllWellSized(images: seq<Image>) {
    forall i :: 0 <= i < |images| ==> WellSized(images[i])
  }

  // Nothing, or a lone name length.
  ghost predicate Ended(tail: Bytes) {
    tail == [] || (|tail| == 4 && 0 < Number(tail) <= MAX_NAME)
  }

  // A frame that stops after its name, or anywhere from the end of its size field to before its digest.
  ghost predicate CutAfterName(name: Bytes, tail: Bytes) {
    tail == NameBytes(name)
  }

  ghost predicate CutInBody(name: Bytes, part: Bytes, tail: Bytes) {
    exists size :: 0 <= size < Pow256(8) && |part| <= Limit(size) && tail == NameBytes(name) + BigEndian(size, 8) + part
  }

  // All frames are there, with nothing that counts after them.
  ghost predicate Complete(lib: Library, plain: Bytes, names: seq<Bytes>, images: seq<Image>, tail: Bytes, calls: seq<(Bytes, Bytes)>) {
    |images| == |names| && AllWellSized(images) && plain == Join(lib, names, images) + tail && Ended(tail) &&
    calls == Pairs(names, images)
  }

  // All frames but the last are there, and the last is cut.
  ghost predicate Truncated(lib: Library, plain: Bytes, names: seq<Bytes>, images: seq<Image>, tail: Bytes, calls: seq<(Bytes, Bytes)>) {
    |names| == |images| + 1 && AllWellSized(images) &&
    var init, last := names[..|images|], names[|images|];
    plain == Join(lib, init, images) + tail &&
    ((CutAfterName(last, tail) && calls == Pairs(init, images)) ||
     (exists part :: CutInBody(last, part, tail) && calls == Pairs(init, images) + [(last, part)]))
  }

  ghost predicate Accepts(lib: Library, plain: Bytes, names: seq<Bytes>, seen: set<Bytes>, calls: seq<(Bytes, Bytes)>) {
    GoodNames(names, seen) && Shaped(lib, plain, names, calls)
  }

  ghost predicate AllPass(calls: seq<(Bytes, Bytes)>, fn: (Bytes, Bytes) -> bool) {
    forall i :: 0 <= i < |calls| ==> fn(calls[i].0, calls[i].1)
  }

  // ---------- one frame, both ways ----------

  lemma FourBytes(n: nat)
    requires n <= MAX_NAME
    ensures Number(BigEndian(n, 4)) == n
  {
    Powers();
    NumberOfBigEndian(n, 4);
  }

  lemma NameHead(name: Bytes, rest: Bytes)
    requires GoodName(name)
    ensures var p := NameBytes(name) + rest;
      |p| >= 4 && Number(p[..4]) == |name| && |p[4..]| >= |name| && p[4..][..|name|] == name && p[4..][|name|..] == rest
  {
    hide BigEndian, Number;
    FourBytes(|name|);
    var p := NameBytes(name) + rest;
    assert p[..4] == BigEndian(|name|, 4);
    assert p[4..] == name + rest;
  }

  lemma HeadName(p: Bytes)
    requires |p| >= 4 && 0 < Number(p[..4]) <= MAX_NAME && |p| - 4 >= Number(p[..4])
    ensures var n := Number(p[..4]);
      GoodName(p[4..][..n]) && p == NameBytes(p[4..][..n]) + p[4..][n..]
  {
    hide BigEndian, Number;
    BigEndianOfNumber(p[..4]);
  }

  lemma SizeHead(size: nat, rest: Bytes)
    requires size < Pow256(8)
    ensures var p := BigEndian(size, 8) + rest;
      |p| >= 8 && Number(p[..8]) == size && p[8..] == rest
  {
    hide BigEndian, Number;
    NumberOfBigEndian(size, 8);
    var p := BigEndian(size, 8) + rest;
    assert p[..8] == BigEndian(size, 8);
  }

  lemma HeadSize(p: Bytes)
    requires |p| >= 8
    ensures Number(p[..8]) < Pow256(8) && p == BigEndian(Number(p[..8]), 8) + p[8..]
  {
    hide BigEndian, Number;
    BigEndianOfNumber(p[..8]);
  }

  // The reader is at the next expected name.
  ghost predicate Ready(expected: seq<Bytes>, c: Cursor, name: Bytes) {
    c.index < |expected| && expected[c.index] == name && GoodName(name) && name !in c.seen
  }

  function Advanced(c: Cursor, name: Bytes, rest: Bytes): Cursor {
    Cursor(rest, c.index + 1, c.seen + {name})
  }

  lemma StepOfName(lib: Library, expected: seq<Bytes>, c: Cursor, name: Bytes, rest: Bytes)
    requires Ready(expected, c, name) && c.plain == NameBytes(name) + rest
    ensures NextStep(lib, expected, c) == BodyStep(lib, name, Advanced(c, name, rest))
  {
    hide BodyStep, Number, BigEndian, NameBytes;
    NameHead(name, rest);
  }

  lemma BodyOfImage(lib: Library, name: Bytes, at: Cursor, image: Image, rest: Bytes)
    requires Sound(lib) && WellSized(image)
    requires at.plain == BigEndian(image.size, 8) + (image.body + lib.sha256(image.body) + rest)
    ensures BodyStep(lib, name, at) == Frame(name, image.body, true, at.(plain := rest))
  {
    hide Number, BigEndian, Pow256, Limit;
    var sum := lib.sha256(image.body);
    var r := image.body + sum + rest;
    SizeHead(image.size, r);
    var n := Limit(image.size);
    assert r[..n] == image.body && r[n..n + 32] == sum && r[n + 32..] == rest;
  }

  lemma StepOfFrame(lib: Library, expected: seq<Bytes>, c: Cursor, name: Bytes, image: Image, rest: Bytes)
    requires Sound(lib) && Ready(expected, c, name) && WellSized(image) && c.plain == FrameBytes(lib, name, image) + rest
    ensures NextStep(lib, expected, c) == Frame(name, image.body, true, Advanced(c, name, rest))
  {
    hide BodyStep, NextStep, BigEndian, NameBytes, WellSized, Sound;
    var q := BigEndian(image.size, 8) + (image.body + lib.sha256(image.body) + rest);
    assert c.plain == NameBytes(name) + q;
    StepOfName(lib, expected, c, name, q);
    BodyOfImage(lib, name, Advanced(c, name, q), image, rest);
  }

  lemma BodyOfPart(lib: Library, name: Bytes, at: Cursor, size: nat, part: Bytes)
    requires size < Pow256(8) && |part| <= Limit(size) && at.plain == BigEndian(size, 8) + part
    ensures BodyStep(lib, name, at) == Frame(name, part, true, at.(plain := []))
  {
    hide Number, BigEndian, Pow256, Limit;
    SizeHead(size, part);
  }

  lemma StepOfCutBody(lib: Library, expected: seq<Bytes>, c: Cursor, name: Bytes, part: Bytes)
    requires Ready(expected, c, name) && CutInBody(name, part, c.plain)
    ensures NextStep(lib, expected, c) == Frame(name, part, true, Advanced(c, name, []))
  {
    hide BodyStep, NextStep, BigEndian, NameBytes, Pow256, Limit;
    var size :| 0 <= size < Pow256(8) && |part| <= Limit(size) && c.plain == NameBytes(name) + BigEndian(size, 8) + part;
    var q := BigEndian(size, 8) + part;
    assert c.plain == NameBytes(name) + q;
    StepOfName(lib, expected, c, name, q);
    BodyOfPart(lib, name, Advanced(c, name, q), size, part);
  }

  lemma NameOfStep(lib: Library, expected: seq<Bytes>, c: Cursor) returns (name: Bytes, q: Bytes)
    requires NextStep(lib, expected, c).Frame? || (NextStep(lib, expected, c).Eof? && NextStep(lib, expected, c).at.index > c.index)
    ensures Ready(expected, c, name) && c.plain == NameBytes(name) + q
    ensures NextStep(lib, expected, c) == BodyStep(lib, name, Advanced(c, name, q))
  {
    hide BodyStep, Number, BigEndian, NameBytes;
    HeadName(c.plain);
    var n := Number(c.plain[..4]);
    name, q := c.plain[4..][..n], c.plain[4..][n..];
  }

  lemma ImageOfBody(lib: Library, name: Bytes, at: Cursor) returns (image: Image)
    requires Sound(lib) && BodyStep(lib, name, at).Frame? && BodyStep(lib, name, at).clean
    ensures var s := BodyStep(lib, name, at);
      image.body == s.body && s.name == name && s.at == at.(plain := s.at.plain) && image.size < Pow256(8) &&
      ((WellSized(image) && at.plain == BigEndian(image.size, 8) + (image.body + lib.sha256(image.body) + s.at.plain)) ||
       (s.at.plain == [] && |image.body| <= Limit(image.size) && at.plain == BigEndian(image.size, 8) + image.body))
  {
    hide Number, BigEndian, Pow256, Limit;
    HeadSize(at.plain);
    var s := BodyStep(lib, name, at);
    var size := Number(at.plain[..8]);
    var r := at.plain[8..];
    var n := Limit(size);
    image := Image(size, s.body);
    if |r| > n {
      assert r == r[..n] + r[n..n + 32] + r[n + 32..];
    }
  }

  // A clean component came from a whole frame, or from the end of a cut one.
  lemma FrameOfStep(lib: Library, expected: seq<Bytes>, c: Cursor) returns (image: Image)
    requires Sound(lib) && NextStep(lib, expected, c).Frame? && NextStep(lib, expected, c).clean
    ensures var s := NextStep(lib, expected, c);
      Ready(expected, c, s.name) && s.at == Advanced(c, s.name, s.at.plain) && image.body == s.body &&
      ((WellSized(image) && c.plain == FrameBytes(lib, s.name, image) + s.at.plain) ||
       (s.at.plain == [] && CutInBody(s.name, s.body, c.plain)))
  {
    hide BodyStep, NextStep, BigEndian, NameBytes, Pow256, Limit, WellSized, Sound;
    var s := NextStep(lib, expected, c);
    var name, q := NameOfStep(lib, expected, c);
    image := ImageOfBody(lib, name, Advanced(c, name, q));
    if WellSized(image) && q == BigEndian(image.size, 8) + (image.body + lib.sha256(image.body) + s.at.plain) {
      assert c.plain == FrameBytes(lib, s.name, image) + s.at.plain;
    } else {
      assert c.plain == NameBytes(s.name) + BigEndian(image.size, 8) + s.body;
    }
  }

  // ---------- the acceptance theorem ----------

  lemma SeenGrows(names: seq<Bytes>, seen: set<Bytes>)
    requires names != []
    ensures GoodNames(names, seen) <==> GoodName(names[0]) && names[0] !in seen && GoodNames(names[1..], seen + {names[0]})
  {
    if GoodName(names[0]) && names[0] !in seen && GoodNames(names[1..], seen + {names[0]}) {
      forall i | 0 < i < |names|
        ensures GoodName(names[i]) && names[i] !in seen && names[i] != names[0]
      {
        assert names[1..][i - 1] == names[i];
      }
      forall i, j | 0 < i < j < |names|
        ensures names[i] != names[j]
      {
        assert names[1..][i - 1] == names[i] && names[1..][j - 1] == names[j];
      }
    }
  }

  lemma PrependComplete(lib: Library, names: seq<Bytes>, image: Image, rest: Bytes, images: seq<Image>, tail: Bytes, calls: seq<(Bytes, Bytes)>)
    requires names != [] && WellSized(image) && Complete(lib, rest, names[1..], images, tail, calls)
    ensures Complete(lib, FrameBytes(lib, names[0], image) + rest, names, [image] + images, tail, [(names[0], image.body)] + calls)
  {
    hide FrameBytes, WellSized, Ended;
    var more := [image] + images;
    assert more[1..] == images;
    assert Join(lib, names, more) == FrameBytes(lib, names[0], image) + Join(lib, names[1..], images);
    assert Pairs(names, more) == [(names[0], image.body)] + calls;
  }

  lemma PrependTruncated(lib: Library, names: seq<Bytes>, image: Image, rest: Bytes, images: seq<Image>, tail: Bytes, calls: seq<(Bytes, Bytes)>)
    requires names != [] && WellSized(image) && Truncated(lib, rest, names[1..], images, tail, calls)
    ensures Truncated(lib, FrameBytes(lib, names[0], image) + rest, names, [image] + images, tail, [(names[0], image.body)] + calls)
  {
    hide FrameBytes, WellSized, CutInBody, CutAfterName;
    var more := [image] + images;
    var init := names[..|more|];
    var last := names[|more|];
    assert more[1..] == images;
    assert init[1..] == names[1..][..|images|] && names[1..][|images|] == last;
    assert Join(lib, init, more) == FrameBytes(lib, names[0], image) + Join(lib, init[1..], images);
    assert Pairs(init, more) == [(names[0], image.body)] + Pairs(init[1..], images);
    if part :| CutInBody(last, part, tail) && calls == Pairs(init[1..], images) + [(last, part)] {
      assert [(names[0], image.body)] + calls == Pairs(init, more) + [(last, part)];
    }
  }

  ghost predicate Shaped(lib: Library, plain: Bytes, names: seq<Bytes>, calls: seq<(Bytes, Bytes)>) {
    (exists images, tail :: Complete(lib, plain, names, images, tail, calls)) ||
    (exists images, tail :: Truncated(lib, plain, names, images, tail, calls))
  }

  lemma PrependFrame(lib: Library, names: seq<Bytes>, image: Image, rest: Bytes, calls: seq<(Bytes, Bytes)>)
    requires names != [] && WellSized(image) && Shaped(lib, rest, names[1..], calls)
    ensures Shaped(lib, FrameBytes(lib, names[0], image) + rest, names, [(names[0], image.body)] + calls)
  {
    hide FrameBytes, WellSized, Complete, Truncated;
    if images, tail :| Complete(lib, rest, names[1..], images, tail, calls) {
      PrependComplete(lib, names, image, rest, images, tail, calls);
    } else {
      var images, tail :| Truncated(lib, rest, names[1..], images, tail, calls);
      PrependTruncated(lib, names, image, rest, images, tail, calls);
    }
  }

  lemma EndOfArchive(lib: Library, expected: seq<Bytes>, c: Cursor)
    requires c.index <= |expected| && NextStep(lib, expected, c).Eof? && NextStep(lib, expected, c).at.index >= |expected|
    ensures Shaped(lib, c.plain, expected[c.index..], [])
    ensures GoodNames(expected[c.index..], c.seen)
  {
    hide BigEndian, Number;
    var names := expected[c.index..];
    if names == [] {
      if c.plain != [] {
        assert c.plain[..4] == c.plain;
      }
      assert Complete(lib, c.plain, names, [], c.plain, []);
    } else {
      var name, q := NameOfStep(lib, expected, c);
      assert names == [name] && names[..0] == [];
      assert c.plain == NameBytes(name);
      assert Truncated(lib, c.plain, names, [], c.plain, []);
    }
  }

  // Reading without error means the bytes have one of the two accepted shapes, and the calls are its components.
  lemma {:induction false} ReadingImpliesAccepts(lib: Library, expected: seq<Bytes>, c: Cursor, fn: (Bytes, Bytes) -> bool)
    requires Sound(lib) && c.index <= |expected| && Reading(lib, expected, c, fn).ok
    ensures Accepts(lib, c.plain, expected[c.index..], c.seen, Reading(lib, expected, c, fn).calls)
    ensures AllPass(Reading(lib, expected, c, fn).calls, fn)
    decreases |c.plain|
  {
    hide NextStep, FrameBytes, WellSized, CutInBody, Complete, Truncated, Sound;
    StepShrinks(lib, expected, c);
    var names := expected[c.index..];
    var s := NextStep(lib, expected, c);
    if s.Eof? {
      EndOfArchive(lib, expected, c);
    } else {
      var image := FrameOfStep(lib, expected, c);
      ReadingImpliesAccepts(lib, expected, s.at, fn);
      SeenGrows(names, c.seen);
      assert expected[s.at.index..] == names[1..];
      var rest := Reading(lib, expected, s.at, fn);
      if WellSized(image) && c.plain == FrameBytes(lib, s.name, image) + s.at.plain {
        PrependFrame(lib, names, image, s.at.plain, rest.calls);
      } else {
        CutAtEnd(lib, c.plain, expected, s.at, names, s.body, fn);
        assert [(s.name, s.body)] + rest.calls == [(s.name, s.body)];
      }
    }
  }

  lemma CutAtEnd(lib: Library, plain: Bytes, expected: seq<Bytes>, at: Cursor, names: seq<Bytes>, part: Bytes, fn: (Bytes, Bytes) -> bool)
    requires names != [] && at.index <= |expected| && expected[at.index..] == names[1..]
    requires at.plain == [] && CutInBody(names[0], part, plain) && Reading(lib, expected, at, fn).ok
    ensures Reading(lib, expected, at, fn).calls == []
    ensures Shaped(lib, plain, names, [(names[0], part)])
  {
    hide CutInBody;
    assert names == [names[0]] && names[..0] == [];
    assert [(names[0], part)] == Pairs(names[..0], []) + [(names[0], part)];
    assert Truncated(lib, plain, names, [], plain, [(names[0], part)]);
  }

  lemma RestOfComplete(lib: Library, plain: Bytes, names: seq<Bytes>, images: seq<Image>, tail: Bytes, calls: seq<(Bytes, Bytes)>)
    returns (rest: Bytes)
    requires names != [] && Complete(lib, plain, names, images, tail, calls)
    ensures images != [] && WellSized(images[0]) && plain == FrameBytes(lib, names[0], images[0]) + rest
    ensures calls != [] && calls == [(names[0], images[0].body)] + calls[1..]
    ensures Complete(lib, rest, names[1..], images[1..], tail, calls[1..])
  {
    hide FrameBytes, WellSized, Ended;
    rest := Join(lib, names[1..], images[1..]) + tail;
    assert plain == FrameBytes(lib, names[0], images[0]) + rest;
    assert calls[1..] == Pairs(names[1..], images[1..]);
  }

  lemma RestOfTruncated(lib: Library, plain: Bytes, names: seq<Bytes>, images: seq<Image>, tail: Bytes, calls: seq<(Bytes, Bytes)>)
    returns (rest: Bytes)
    requires images != [] && Truncated(lib, plain, names, images, tail, calls)
    ensures names != [] && WellSized(images[0]) && plain == FrameBytes(lib, names[0], images[0]) + rest
    ensures calls != [] && calls == [(names[0], images[0].body)] + calls[1..]
    ensures Truncated(lib, rest, names[1..], images[1..], tail, calls[1..])
  {
    hide FrameBytes, WellSized, CutAfterName, CutInBody;
    var init, last := names[..|images|], names[|images|];
    var more := images[1..];
    rest := Join(lib, init[1..], more) + tail;
    assert plain == FrameBytes(lib, names[0], images[0]) + rest;
    assert names[1..][..|more|] == init[1..] && names[1..][|more|] == last;
    assert Pairs(init, images) == [(names[0], images[0].body)] + Pairs(init[1..], more);
    if CutAfterName(last, tail) && calls == Pairs(init, images) {
      assert calls[1..] == Pairs(init[1..], more);
    } else {
      var part :| CutInBody(last, part, tail) && calls == Pairs(init, images) + [(last, part)];
      assert calls[1..] == Pairs(init[1..], more) + [(last, part)];
    }
  }

  lemma EndOfBytes(lib: Library, expected: seq<Bytes>, c: Cursor, fn: (Bytes, Bytes) -> bool)
    requires c.index == |expected| && Ended(c.plain)
    ensures Reading(lib, expected, c, fn) == Outcome(true, [])
  {
    hide Number;
    if c.plain != [] {
      assert c.plain[..4] == c.plain;
    }
  }

  lemma LastIsCut(lib: Library, expected: seq<Bytes>, c: Cursor, fn: (Bytes, Bytes) -> bool, calls: seq<(Bytes, Bytes)>)
    requires c.index + 1 == |expected| && Ready(expected, c, expected[c.index]) && AllPass(calls, fn)
    requires var last := expected[c.index];
      (CutAfterName(last, c.plain) && calls == []) || (exists part :: CutInBody(last, part, c.plain) && calls == [(last, part)])
    ensures Reading(lib, expected, c, fn) == Outcome(true, calls)
  {
    hide NextStep, NameBytes, CutInBody;
    var last := expected[c.index];
    StepShrinks(lib, expected, c);
    if CutAfterName(last, c.plain) && calls == [] {
      assert c.plain == NameBytes(last) + [];
      StepOfName(lib, expected, c, last, []);
    } else {
      var part :| CutInBody(last, part, c.plain) && calls == [(last, part)];
      StepOfCutBody(lib, expected, c, last, part);
      assert fn(calls[0].0, calls[0].1);
      EndOfBytes(lib, expected, Advanced(c, last, []), fn);
      assert [(last, part)] + [] == calls;
    }
  }

  lemma {:induction false} AcceptsImpliesReading(lib: Library, expected: seq<Bytes>, c: Cursor, fn: (Bytes, Bytes) -> bool, calls: seq<(Bytes, Bytes)>)
    requires Sound(lib) && c.index <= |expected| && AllPass(calls, fn)
    requires Accepts(lib, c.plain, expected[c.index..], c.seen, calls)
    ensures Reading(lib, expected, c, fn) == Outcome(true, calls)
    decreases |expected| - c.index
  {
    hide FrameBytes, WellSized, CutInBody, CutAfterName, Complete, Truncated, Sound, NextStep, Ended, Pairs;
    var names := expected[c.index..];
    StepShrinks(lib, expected, c);
    if images, tail :| Complete(lib, c.plain, names, images, tail, calls) {
      if names == [] {
        CompleteAndEmpty(lib, c.plain, names, images, tail, calls);
        EndOfBytes(lib, expected, c, fn);
      } else {
        var rest := RestOfComplete(lib, c.plain, names, images, tail, calls);
        FirstFrame(lib, expected, c, fn, calls, images[0], rest);
      }
    } else {
      var images, tail :| Truncated(lib, c.plain, names, images, tail, calls);
      if images == [] {
        TruncatedAndLast(lib, c.plain, names, tail, calls);
        SeenGrows(names, c.seen);
        LastIsCut(lib, expected, c, fn, calls);
      } else {
        var rest := RestOfTruncated(lib, c.plain, names, images, tail, calls);
        FirstFrame(lib, expected, c, fn, calls, images[0], rest);
      }
    }
  }

  lemma CompleteAndEmpty(lib: Library, plain: Bytes, names: seq<Bytes>, images: seq<Image>, tail: Bytes, calls: seq<(Bytes, Bytes)>)
    requires names == [] && Complete(lib, plain, names, images, tail, calls)
    ensures Ended(plain) && calls == []
  {
    hide Ended;
    assert plain == [] + tail == tail;
  }

  lemma TruncatedAndLast(lib: Library, plain: Bytes, names: seq<Bytes>, tail: Bytes, calls: seq<(Bytes, Bytes)>)
    requires Truncated(lib, plain, names, [], tail, calls)
    ensures |names| == 1 &&
      ((CutAfterName(names[0], plain) && calls == []) || (exists part :: CutInBody(names[0], part, plain) && calls == [(names[0], part)]))
  {
    hide CutAfterName, CutInBody;
    assert names[..0] == [] && plain == tail;
    if part :| CutInBody(names[0], part, tail) && calls == Pairs(names[..0], []) + [(names[0], part)] {
      assert calls == [(names[0], part)];
    }
  }

  lemma FirstFrame(lib: Library, expected: seq<Bytes>, c: Cursor, fn: (Bytes, Bytes) -> bool, calls: seq<(Bytes, Bytes)>,
                   image: Image, rest: Bytes)
    requires Sound(lib) && c.index < |expected| && AllPass(calls, fn) && GoodNames(expected[c.index..], c.seen)
    requires WellSized(image) && c.plain == FrameBytes(lib, expected[c.index], image) + rest
    requires calls != [] && calls == [(expected[c.index], image.body)] + calls[1..]
    requires Shaped(lib, rest, expected[c.index..][1..], calls[1..])
    ensures Reading(lib, expected, c, fn) == Outcome(true, calls)
    decreases |expected| - c.index, 0
  {
    hide FrameBytes, WellSized, Sound, NextStep, Shaped;
    var name := expected[c.index];
    var at := Advanced(c, name, rest);
    SeenGrows(expected[c.index..], c.seen);
    assert expected[at.index..] == expected[c.index..][1..];
    StepOfFrame(lib, expected, c, name, image, rest);
    StepShrinks(lib, expected, c);
    assert fn(calls[0].0, calls[0].1);
    assert AllPass(calls[1..], fn);
    AcceptsImpliesReading(lib, expected, at, fn, calls[1..]);
  }

  // Each ends without error, having made exactly these calls, on exactly these inputs.
  lemma EachSucceedsIffAccepted(lib: Library, expected: seq<Bytes>, plain: Bytes, fn: (Bytes, Bytes) -> bool, calls: seq<(Bytes, Bytes)>)
    requires Sound(lib)
    ensures Reading(lib, expected, Cursor(plain, 0, {}), fn) == Outcome(true, calls)
       <==> Accepts(lib, plain, expected, {}, calls) && AllPass(calls, fn)
  {
    hide Accepts, Reading, AllPass, Sound;
    var c := Cursor(plain, 0, {});
    assert expected[0..] == expected;
    if Reading(lib, expected, c, fn) == Outcome(true, calls) {
      ReadingImpliesAccepts(lib, expected, c, fn);
    }
    if Accepts(lib, plain, expected, {}, calls) && AllPass(calls, fn) {
      AcceptsImpliesReading(lib, expected, c, fn, calls);
    }
  }

  // An archive whose only frame stops after its name is read as complete, without a call.
  lemma CutFrameIsAccepted(lib: Library, name: Bytes, fn: (Bytes, Bytes) -> bool)
    requires Sound(lib) && GoodName(name)
    ensures Reading(lib, [name], Cursor(NameBytes(name), 0, {}), fn) == Outcome(true, [])
  {
    var names := [name];
    assert names[..0] == [] && Join(lib, [], []) + NameBytes(name) == NameBytes(name);
    assert Truncated(lib, NameBytes(name), names, [], NameBytes(name), []);
    assert Accepts(lib, NameBytes(name), names, {}, []) && AllPass([], fn);
    EachSucceedsIffAccepted(lib, names, NameBytes(name), fn, []);
  }

  // ---------- archives made of whole frames ----------

  // A whole frame with any digest.
  datatype RawFrame = RawFrame(name: Bytes, image: Image, digest: Bytes)

  ghost predicate WholeFrame(f: RawFrame) {
    GoodName(f.name) && WellSized(f.image) && |f.digest| == 32
  }

  function RawBytes(f: RawFrame): Bytes {
    NameBytes(f.name) + BigEndian(f.image.size, 8) + f.image.body + f.digest
  }

  function RawJoin(frames: seq<RawFrame>): Bytes {
    if frames == [] then [] else RawBytes(frames[0]) + RawJoin(frames[1..])
  }

  // The frames are the expected components, in order, none repeated, each with its digest.
  ghost predicate AsExpected(lib: Library, frames: seq<RawFrame>, names: seq<Bytes>, seen: set<Bytes>) {
    |frames| == |names| &&
    (forall i :: 0 <= i < |frames| ==>
      frames[i].name == names[i] && names[i] !in seen && frames[i].digest == lib.sha256(frames[i].image.body)) &&
    (forall i, j :: 0 <= i < j < |names| ==> names[i] != names[j])
  }

  lemma BodyOfRaw(lib: Library, name: Bytes, at: Cursor, image: Image, digest: Bytes, rest: Bytes)
    requires WellSized(image) && |digest| == 32
    requires at.plain == BigEndian(image.size, 8) + (image.body + digest + rest)
    ensures BodyStep(lib, name, at) == Frame(name, image.body, digest == lib.sha256(image.body), at.(plain := rest))
  {
    hide Number, BigEndian, Pow256, Limit;
    var r := image.body + digest + rest;
    SizeHead(image.size, r);
    var n := Limit(image.size);
    assert r[..n] == image.body && r[n..n + 32] == digest && r[n + 32..] == rest;
  }

  lemma StepOfRaw(lib: Library, expected: seq<Bytes>, c: Cursor, f: RawFrame, rest: Bytes)
    requires WholeFrame(f) && c.plain == RawBytes(f) + rest
    ensures NextStep(lib, expected, c) ==
      if c.index < |expected| && expected[c.index] == f.name && f.name !in c.seen
      then Frame(f.name, f.image.body, f.digest == lib.sha256(f.image.body), Advanced(c, f.name, rest))
      else Fail
  {
    hide BodyStep, BigEndian, Number, WellSized;
    var q := BigEndian(f.image.size, 8) + (f.image.body + f.digest + rest);
    assert c.plain == NameBytes(f.name) + q;
    NameHead(f.name, q);
    BodyOfRaw(lib, f.name, Advanced(c, f.name, q), f.image, f.digest, rest);
  }

  lemma AsExpectedTail(lib: Library, frames: seq<RawFrame>, names: seq<Bytes>, seen: set<Bytes>)
    requires frames != [] && names != []
    ensures AsExpected(lib, frames, names, seen) <==>
      frames[0].name == names[0] && names[0] !in seen && frames[0].digest == lib.sha256(frames[0].image.body) &&
      AsExpected(lib, frames[1..], names[1..], seen + {names[0]})
  {
    var f, n := frames[1..], names[1..];
    if frames[0].name == names[0] && names[0] !in seen && frames[0].digest == lib.sha256(frames[0].image.body) &&
       AsExpected(lib, f, n, seen + {names[0]}) {
      forall i | 0 < i < |frames|
        ensures frames[i].name == names[i] && names[i] !in seen + {names[0]} && frames[i].digest == lib.sha256(frames[i].image.body)
      {
        assert f[i - 1] == frames[i] && n[i - 1] == names[i];
      }
      forall i, j | 0 <= i < j < |names|
        ensures names[i] != names[j]
      {
        assert n[j - 1] == names[j];
        if i > 0 {
          assert n[i - 1] == names[i];
        }
      }
    }
  }

  // On whole frames Each succeeds exactly when they are the expected ones, and it hands over their bodies.
  lemma {:induction false} WholeFramesAccepted(lib: Library, expected: seq<Bytes>, c: Cursor, frames: seq<RawFrame>)
    requires c.index <= |expected| && c.plain == RawJoin(frames) && forall i :: 0 <= i < |frames| ==> WholeFrame(frames[i])
    ensures var out := Reading(lib, expected, c, (_, _) => true);
      (out.ok <==> AsExpected(lib, frames, expected[c.index..], c.seen)) &&
      (out.ok ==> out.calls == seq(|frames|, i requires 0 <= i < |frames| => (frames[i].name, frames[i].image.body)))
    decreases |frames|
  {
    hide WholeFrame, RawBytes, NextStep;
    var fn := (_: Bytes, _: Bytes) => true;
    var names := expected[c.index..];
    StepShrinks(lib, expected, c);
    if frames == [] {
      AtTheEnd(lib, expected, c);
    } else {
      var f := frames[0];
      StepOfRaw(lib, expected, c, f, RawJoin(frames[1..]));
      if c.index < |expected| && expected[c.index] == f.name && f.name !in c.seen {
        var at := Advanced(c, f.name, RawJoin(frames[1..]));
        WholeFramesAccepted(lib, expected, at, frames[1..]);
        AsExpectedTail(lib, frames, names, c.seen);
        assert expected[at.index..] == names[1..];
      } else if names != [] {
        AsExpectedTail(lib, frames, names, c.seen);
      }
    }
  }

  lemma AtTheEnd(lib: Library, expected: seq<Bytes>, c: Cursor)
    requires c.plain == []
    ensures NextStep(lib, expected, c) == Eof(c)
  {
  }

  // ---------- the writer ----------

  // What a component offers when opened: nothing (an error), or a stream and a declared size.
  datatype Content = Inline(data: Bytes) | Lazy(result: Option<(Bytes, int)>)

  datatype Component = Component(name: Bytes, content: Content, size: int, hash: Option<Bytes>)

  function OpenComponent(part: Component): Option<(Bytes, int)> {
    match part.content
    case Inline(data) => Some((data, |data|))
    case Lazy(None) => None
    case Lazy(Some((stream, size))) => Some((stream, if part.size > 0 then part.size else size))
  }

  // The component can be opened and holds at least its declared size.
  predicate Openable(part: Component) {
    OpenComponent(part).Some? && 0 <= OpenComponent(part).value.1 <= |OpenComponent(part).value.0|
  }

  function ImageOf(part: Component): Image
    requires Openable(part)
  {
    var (stream, size) := OpenComponent(part).value;
    Image(size, stream[..size])
  }

  // ... is not an empty home, and has the hash it claims.
  predicate Writable(lib: Library, part: Component) {
    Openable(part) &&
    !(part.name == HOME && ImageOf(part).size == 0) &&
    (part.hash.Some? ==> part.hash.value == lib.sha256(ImageOf(part).body))
  }

  // The bytes are the characters of the text.
  ghost predicate Spells(b: Bytes, text: string) {
    |b| == |text| && forall i :: 0 <= i < |b| ==> b[i] == text[i] as int
  }

  // What a component holds: its data, or the first n bytes of the stream it opens, n being its own size if that is positive and
  // otherwise the one it is offered with.
  ghost predicate Holds(part: Component, body: Bytes) {
    match part.content
    case Inline(data) => body == data
    case Lazy(None) => false
    case Lazy(Some((stream, offered))) =>
      var n := if part.size > 0 then part.size else offered;
      0 <= n <= |stream| && body == stream[..n]
  }

  // It can be written: it holds these bytes, it is not an empty home, and it claims no other hash.
  ghost predicate MayBeWritten(lib: Library, part: Component, body: Bytes) {
    Holds(part, body) && (Spells(part.name, "home") ==> body != []) && (part.hash == None || part.hash == Some(lib.sha256(body)))
  }

  lemma HomeSpells(name: Bytes)
    ensures name == HOME <==> Spells(name, "home")
  {
    if Spells(name, "home") {
      assert name == [0x68, 0x6f, 0x6d, 0x65];
    }
  }

  lemma WritableIff(lib: Library, part: Component)
    ensures Writable(lib, part) <==> exists body :: MayBeWritten(lib, part, body)
    ensures Writable(lib, part) ==> MayBeWritten(lib, part, ImageOf(part).body) && ImageOf(part).size == |ImageOf(part).body|
  {
    hide Spells;
    HomeSpells(part.name);
    if Writable(lib, part) {
      assert MayBeWritten(lib, part, ImageOf(part).body);
    }
    if body :| MayBeWritten(lib, part, body) {
      assert Openable(part) && ImageOf(part).body == body;
    }
  }

  // Name length in four bytes and name, size in eight bytes and body, digest; numbers have their high byte first.
  ghost predicate FrameIs(frame: Bytes, name: Bytes, body: Bytes, digest: Bytes) {
    |frame| == 12 + |name| + |body| + |digest| &&
    FourHighFirst(frame[..4]) == |name| && frame[4..4 + |name|] == name &&
    EightHighFirst(frame[4 + |name|..12 + |name|]) == |body| && frame[12 + |name|..12 + |name| + |body|] == body &&
    frame[12 + |name| + |body|..] == digest
  }

  function FourHighFirst(b: Bytes): int
    requires |b| == 4
  {
    0x100_0000 * b[0] as int + 0x1_0000 * b[1] as int + 0x100 * b[2] as int + b[3] as int
  }

  function EightHighFirst(b: Bytes): int
    requires |b| == 8
  {
    0x1_0000_0000 * FourHighFirst(b[..4]) + FourHighFirst(b[4..])
  }

  lemma NumberStep(b: Bytes, k: nat)
    requires 0 < k <= |b|
    ensures Number(b[..k]) == 256 * Number(b[..k - 1]) + b[k - 1]
  {
    assert b[..k][..k - 1] == b[..k - 1];
  }

  lemma FourMore(b: Bytes, k: nat)
    requires k + 4 <= |b|
    ensures Number(b[..k + 4]) == 0x1_0000_0000 * Number(b[..k]) + FourHighFirst(b[k..k + 4])
  {
    hide Number;
    NumberStep(b, k + 1);
    NumberStep(b, k + 2);
    NumberStep(b, k + 3);
    NumberStep(b, k + 4);
  }

  lemma NumberIsHighFirst(b: Bytes)
    ensures |b| == 4 ==> Number(b) == FourHighFirst(b)
    ensures |b| == 8 ==> Number(b) == EightHighFirst(b)
  {
    if |b| == 4 || |b| == 8 {
      FourMore(b, 0);
      assert Number(b[..0]) == 0;
      if |b| == 4 {
        assert b[..4] == b && b[0..4] == b;
      } else {
        FourMore(b, 4);
        assert b[..8] == b && b[0..4] == b[..4] && b[4..8] == b[4..];
      }
    }
  }

  lemma FrameLayout(lib: Library, name: Bytes, body: Bytes)
    requires |name| < 0x1_0000_0000 && |body| < 0x8000_0000_0000_0000
    ensures FrameIs(FrameBytes(lib, name, Image(|body|, body)), name, body, lib.sha256(body))
  {
    hide BigEndian, Number, FourHighFirst, EightHighFirst;
    var a, b, d := BigEndian(|name|, 4), BigEndian(|body|, 8), lib.sha256(body);
    var f := FrameBytes(lib, name, Image(|body|, body));
    Powers();
    NumberOfBigEndian(|name|, 4);
    NumberOfBigEndian(|body|, 8);
    NumberIsHighFirst(a);
    NumberIsHighFirst(b);
    assert f == a + name + b + body + d;
    assert f[..4] == a && f[4..4 + |name|] == name && f[4 + |name|..12 + |name|] == b;
    assert f[12 + |name|..12 + |name| + |body|] == body && f[12 + |name| + |body|..] == d;
  }

  predicate AllWritable(lib: Library, parts: seq<Component>) {
    forall i :: 0 <= i < |parts| ==> Openable(parts[i]) && Writable(lib, parts[i])
  }

  lemma WritableOpens(lib: Library, part: Component)
    requires Writable(lib, part)
    ensures Openable(part)
  {
  }

  // Declared sizes are int64 values.
  predicate Int64Size(part: Component) {
    OpenComponent(part).Some? ==> -0x8000_0000_0000_0000 <= OpenComponent(part).value.1 < 0x8000_0000_0000_0000
  }

  // The names an inventory is accepted with.
  ghost predicate Inventory(parts: seq<Component>, expected: seq<Bytes>) {
    |parts| == |expected| &&
    (forall i :: 0 <= i < |parts| ==> parts[i].name == expected[i] && parts[i].name != []) &&
    (forall i, j :: 0 <= i < j < |parts| ==> parts[i].name != parts[j].name)
  }

  method ValidateInventory(parts: seq<Component>, expected: seq<Bytes>) returns (ok: bool)
    ensures ok <==> Inventory(parts, expected)
  {
    if |parts| != |expected| {
      return false;
    }
    var seen: set<Bytes> := {};
    for i := 0 to |parts|
      invariant forall j :: 0 <= j < i ==> parts[j].name == expected[j] && parts[j].name != []
      invariant forall j, k :: 0 <= j < k < i ==> parts[j].name != parts[k].name
      invariant seen == set j | 0 <= j < i :: parts[j].name
    {
      var part := parts[i];
      if part.name == [] {
        return false;
      }
      if part.name in seen {
        return false;
      }
      seen := seen + {part.name};
      if part.name != expected[i] {
        return false;
      }
    }
    return true;
  }

  lemma FrameAppended(lib: Library, out: Bytes, name: Bytes, image: Image)
    ensures out + BigEndian(|name|, 4) + name + BigEndian(image.size, 8) + image.body + lib.sha256(image.body) ==
            out + FrameBytes(lib, name, image)
  {
    hide BigEndian;
    Regroup(out, BigEndian(|name|, 4), name, BigEndian(image.size, 8), image.body, lib.sha256(image.body));
  }

  lemma Regroup(a: Bytes, b: Bytes, c: Bytes, d: Bytes, e: Bytes, f: Bytes)
    ensures a + b + c + d + e + f == a + (b + c + d + e + f)
  {
    assert a + b + c == a + (b + c);
    assert a + (b + c) + d == a + (b + c + d);
    assert a + (b + c + d) + e == a + (b + c + d + e);
  }

  class ArchiveWriter {
    const lib: Library
    var out: Bytes

    constructor (lib: Library)
      ensures this.lib == lib && out == []
    {
      this.lib, out := lib, [];
    }

    method Write(b: Bytes)
      modifies this
      ensures out == old(out) + b
    {
      out := out + b;
    }

    method WriteComponent(part: Component) returns (ok: bool)
      requires Int64Size(part)
      modifies this
      ensures ok <==> Writable(lib, part)
      ensures ok ==> out == old(out) + FrameBytes(lib, part.name, ImageOf(part))
      ensures ok <==> exists body :: MayBeWritten(lib, part, body)
      ensures ok && |part.name| < 0x1_0000_0000 ==> exists body ::
        MayBeWritten(lib, part, body) && FrameIs(out[|old(out)|..], part.name, body, lib.sha256(body))
    {
      hide BigEndian, Limit, FrameBytes, MayBeWritten, FrameIs;
      WritableIff(lib, part);
      var handle := OpenComponent(part);
      if handle.None? {
        return false;
      }
      var (stream, size) := handle.value;
      if part.name == HOME && size == 0 {
        return false;
      }
      Write(BigEndian(|part.name|, 4));
      Write(part.name);
      Write(BigEndian(if size < 0 then size + 0x1_0000_0000_0000_0000 else size, 8));
      // io.CopyBuffer from a LimitReader: no more than size bytes, none for a negative size.
      var copied := if size <= 0 then 0 else if size <= |stream| then size else |stream|;
      var body := stream[..copied];
      Write(body);
      if copied != size {
        return false;
      }
      var sum := lib.sha256(body);
      if part.hash.Some? && part.hash.value != sum {
        return false;
      }
      Write(sum);
      FrameAppended(lib, old(out), part.name, ImageOf(part));
      assert out[|old(out)|..] == FrameBytes(lib, part.name, ImageOf(part));
      if |part.name| < 0x1_0000_0000 {
        FrameLayout(lib, part.name, ImageOf(part).body);
      }
      return true;
    }

    method WriteHpm3(manifest: Manifest, parts: seq<Component>) returns (ok: bool)
      requires forall i :: 0 <= i < |parts| ==> Int64Size(parts[i])
      requires out == []
      modifies this
      ensures ok <==> AllWritable(lib, parts)
      ensures ok ==> out == ArchiveBytes(lib, manifest, parts)
    {
      hide BigEndian, FrameBytes, Join, Writable, Images, Names, ImageOf, Openable;
      var header := lib.marshal(manifest);
      Write(MAGIC);
      Write(BigEndian(|header|, 4));
      Write(header);
      ghost var start := out;
      NothingJoined(lib, parts[..0]);
      for i := 0 to |parts|
        invariant AllWritable(lib, parts[..i])
        invariant out == start + Join(lib, Names(parts[..i]), Images(lib, parts[..i]))
      {
        ok := WriteComponent(parts[i]);
        if !ok {
          assert !Writable(lib, parts[i]);
          return;
        }
        WritableOpens(lib, parts[i]);
        JoinAppend(lib, parts[..i], parts[i]);
        assert AllWritable(lib, parts[..i + 1]);
        assert parts[..i + 1] == parts[..i] + [parts[i]];
      }
      assert parts[..|parts|] == parts;
      ok := true;
    }
  }

  function Names(parts: seq<Component>): (r: seq<Bytes>)
    ensures |r| == |parts| && forall i :: 0 <= i < |parts| ==> r[i] == parts[i].name
  {
    seq(|parts|, i requires 0 <= i < |parts| => parts[i].name)
  }

  function Images(lib: Library, parts: seq<Component>): (r: seq<Image>)
    requires AllWritable(lib, parts)
    ensures |r| == |parts| && forall i :: 0 <= i < |parts| ==> r[i] == ImageOf(parts[i])
  {
    seq(|parts|, i requires 0 <= i < |parts| => ImageOf(parts[i]))
  }

  function ArchiveBytes(lib: Library, manifest: Manifest, parts: seq<Component>): Bytes
    requires AllWritable(lib, parts)
  {
    var header := lib.marshal(manifest);
    MAGIC + BigEndian(|header|, 4) + header + Join(lib, Names(parts), Images(lib, parts))
  }

  lemma {:induction false} JoinConcat(lib: Library, a: seq<Bytes>, x: seq<Image>, b: seq<Bytes>, y: seq<Image>)
    requires |a| == |x| && |b| == |y|
    ensures Join(lib, a + b, x + y) == Join(lib, a, x) + Join(lib, b, y)
    decreases |a|
  {
    hide FrameBytes;
    if a == [] {
      assert a + b == b && x + y == y;
    } else {
      JoinConcat(lib, a[1..], x[1..], b, y);
      assert (a + b)[1..] == a[1..] + b && (x + y)[1..] == x[1..] + y;
    }
  }

  lemma NothingJoined(lib: Library, parts: seq<Component>)
    requires parts == []
    ensures AllWritable(lib, parts) && Join(lib, Names(parts), Images(lib, parts)) == []
  {
  }

  lemma JoinAppend(lib: Library, parts: seq<Component>, part: Component)
    requires AllWritable(lib, parts) && Writable(lib, part)
    ensures Join(lib, Names(parts + [part]), Images(lib, parts + [part]))
         == Join(lib, Names(parts), Images(lib, parts)) + FrameBytes(lib, part.name, ImageOf(part))
  {
    hide FrameBytes, Writable, ImageOf, Openable;
    WritableOpens(lib, part);
    assert AllWritable(lib, parts + [part]);
    JoinConcat(lib, Names(parts), Images(lib, parts), [part.name], [ImageOf(part)]);
    assert Names(parts + [part]) == Names(parts) + [part.name];
    assert Images(lib, parts + [part]) == Images(lib, parts) + [ImageOf(part)];
    assert Join(lib, [part.name], [ImageOf(part)]) == FrameBytes(lib, part.name, ImageOf(part)) + [];
  }

  // ---------- the header, and the round trip ----------

  // The manifest and the bytes after it, or None for any of the header's errors.
  method ReadHeader(lib: Library, plain: Bytes) returns (r: Option<(Manifest, Bytes)>)
    ensures r == HeaderOf(lib, plain)
  {
    if |plain| < 5 || plain[..5] != MAGIC {
      return None;
    }
    var p := plain[5..];
    if |p| < 4 {
      return None;
    }
    var headerLen := Number(p[..4]);
    if headerLen == 0 || headerLen > MAX_HEADER || |p[4..]| < headerLen {
      return None;
    }
    var decoded := lib.unmarshal(p[4..][..headerLen]);
    if decoded.None? || decoded.value.version != FORMAT {
      return None;
    }
    return Some((decoded.value, p[4..][headerLen..]));
  }

  function HeaderOf(lib: Library, plain: Bytes): Option<(Manifest, Bytes)> {
    if |plain| < 9 || plain[..5] != MAGIC then None
    else
      var headerLen := Number(plain[5..][..4]);
      var p := plain[5..][4..];
      if headerLen == 0 || headerLen > MAX_HEADER || |p| < headerLen then None
      else
        match lib.unmarshal(p[..headerLen])
        case Some(m) => if m.version == FORMAT then Some((m, p[headerLen..])) else None
        case None => None
  }

  // What is read back from an archive: the manifest, and the calls of an Each that ended without error.
  function ReadBack(lib: Library, plain: Bytes): Option<(Manifest, seq<(Bytes, Bytes)>)> {
    match HeaderOf(lib, plain)
    case None => None
    case Some((m, rest)) =>
      var out := Reading(lib, m.expected, Cursor(rest, 0, {}), (_, _) => true);
      if out.ok then Some((m, out.calls)) else None
  }

  lemma HeaderOfArchive(lib: Library, manifest: Manifest, parts: seq<Component>)
    requires Sound(lib) && AllWritable(lib, parts)
    requires |lib.marshal(manifest)| < 0x1_0000_0000
    ensures HeaderOf(lib, ArchiveBytes(lib, manifest, parts)) ==
      if 0 < |lib.marshal(manifest)| <= MAX_HEADER && manifest.version == FORMAT
      then Some((manifest, Join(lib, Names(parts), Images(lib, parts)))) else None
  {
    hide BigEndian, Number, Join, Writable, Images;
    var header := lib.marshal(manifest);
    var frames := Join(lib, Names(parts), Images(lib, parts));
    var plain := ArchiveBytes(lib, manifest, parts);
    Powers();
    NumberOfBigEndian(|header|, 4);
    assert plain[..5] == MAGIC;
    assert plain[5..] == BigEndian(|header|, 4) + header + frames;
    assert plain[5..][..4] == BigEndian(|header|, 4);
    assert plain[5..][4..] == header + frames;
    if |header| <= MAX_HEADER {
      assert plain[5..][4..][..|header|] == header && plain[5..][4..][|header|..] == frames;
      assert lib.unmarshal(header) == Some(manifest);
    }
  }

  // What an archive of these parts should hand over.
  function Contents(lib: Library, parts: seq<Component>): (r: seq<(Bytes, Bytes)>)
    requires AllWritable(lib, parts)
    ensures |r| == |parts| && forall i :: 0 <= i < |parts| ==> r[i] == (parts[i].name, ImageOf(parts[i]).body)
  {
    seq(|parts|, i requires 0 <= i < |parts| => (parts[i].name, ImageOf(parts[i]).body))
  }

  lemma FramesReadBack(lib: Library, parts: seq<Component>, expected: seq<Bytes>)
    requires Sound(lib) && Inventory(parts, expected) && AllWritable(lib, parts)
    requires forall i :: 0 <= i < |parts| ==> Int64Size(parts[i])
    ensures var out := Reading(lib, expected, Cursor(Join(lib, Names(parts), Images(lib, parts)), 0, {}), (_, _) => true);
      if forall i :: 0 <= i < |expected| ==> |expected[i]| <= MAX_NAME then out == Outcome(true, Contents(lib, parts))
      else !out.ok
  {
    hide Reading, Join, Sound, Writable;
    var fn := (_: Bytes, _: Bytes) => true;
    var images := Images(lib, parts);
    var frames := Join(lib, Names(parts), images);
    var calls := Contents(lib, parts);
    assert Names(parts) == expected;
    if forall i :: 0 <= i < |expected| ==> |expected[i]| <= MAX_NAME {
      forall i | 0 <= i < |images|
        ensures WellSized(images[i])
      {
        ImageWellSized(lib, parts[i]);
      }
      assert frames == frames + [] && calls == Pairs(expected, images);
      assert Complete(lib, frames, expected, images, [], calls);
      assert GoodNames(expected, {}) by {
        assert forall i :: 0 <= i < |expected| ==> expected[i] == parts[i].name;
      }
      EachSucceedsIffAccepted(lib, expected, frames, fn, calls);
    } else if Reading(lib, expected, Cursor(frames, 0, {}), fn).ok {
      EachSucceedsIffAccepted(lib, expected, frames, fn, Reading(lib, expected, Cursor(frames, 0, {}), fn).calls);
      assert forall i :: 0 <= i < |expected| ==> GoodName(expected[i]);
    }
  }

  lemma ImageWellSized(lib: Library, part: Component)
    requires Writable(lib, part) && Int64Size(part)
    ensures WellSized(ImageOf(part))
  {
    Powers();
  }

  // Reading back what the writer wrote gives the manifest and every component, in order, with its bytes,
  // exactly when the header is of an accepted size and no name is longer than a reader accepts.
  lemma RoundTrip(lib: Library, manifest: Manifest, parts: seq<Component>)
    requires Sound(lib) && Inventory(parts, manifest.expected) && AllWritable(lib, parts)
    requires forall i :: 0 <= i < |parts| ==> Int64Size(parts[i])
    requires manifest.version == 3 && |lib.marshal(manifest)| < 0x1_0000_0000
    ensures ReadBack(lib, ArchiveBytes(lib, manifest, parts)) ==
      if 0 < |lib.marshal(manifest)| <= 1048576 && forall i :: 0 <= i < |parts| ==> |parts[i].name| <= 4096
      then Some((manifest, Contents(lib, parts))) else None
  {
    hide Reading, Join, Sound, Writable, HeaderOf, ArchiveBytes;
    HeaderOfArchive(lib, manifest, parts);
    FramesReadBack(lib, parts, manifest.expected);
  }

  // The archive begins with the letters HPM3 and a line end, the header's length in four bytes, and the header.
  lemma ArchiveStart(lib: Library, manifest: Manifest, parts: seq<Component>)
    requires AllWritable(lib, parts) && |lib.marshal(manifest)| < 0x1_0000_0000
    ensures var a, n := ArchiveBytes(lib, manifest, parts), |lib.marshal(manifest)|;
      |a| >= 9 + n && Spells(a[..5], "HPM3\n") && FourHighFirst(a[5..9]) == n && a[9..9 + n] == lib.marshal(manifest)
  {
    hide BigEndian, Number, FourHighFirst, Join, Writable;
    var header := lib.marshal(manifest);
    var a, rest := ArchiveBytes(lib, manifest, parts), Join(lib, Names(parts), Images(lib, parts));
    Powers();
    NumberOfBigEndian(|header|, 4);
    NumberIsHighFirst(BigEndian(|header|, 4));
    assert a == MAGIC + BigEndian(|header|, 4) + header + rest;
    assert a[..5] == MAGIC && a[5..9] == BigEndian(|header|, 4) && a[9..9 + |header|] == header;
  }

  // Every component that can be written comes back with the bytes it holds: reading is told each name and those bytes, in order.
  lemma BytesComeBack(lib: Library, manifest: Manifest, parts: seq<Component>)
    requires Sound(lib) && Inventory(parts, manifest.expected)
    requires forall i :: 0 <= i < |parts| ==> Int64Size(parts[i]) && |parts[i].name| <= 4096 && exists body :: MayBeWritten(lib, parts[i], body)
    requires manifest.version == 3 && 0 < |lib.marshal(manifest)| <= 1048576
    ensures AllWritable(lib, parts)
    ensures var r := ReadBack(lib, ArchiveBytes(lib, manifest, parts));
      r.Some? && r.value.0 == manifest && |r.value.1| == |parts| &&
      forall i :: 0 <= i < |parts| ==> r.value.1[i].0 == parts[i].name && Holds(parts[i], r.value.1[i].1)
  {
    hide Sound, Inventory, MayBeWritten, Writable, ReadBack, ArchiveBytes, Holds;
    forall i | 0 <= i < |parts|
      ensures Openable(parts[i]) && Writable(lib, parts[i])
    {
      WritableIff(lib, parts[i]);
      WritableOpens(lib, parts[i]);
    }
    RoundTrip(lib, manifest, parts);
    forall i | 0 <= i < |parts|
      ensures Holds(parts[i], Contents(lib, parts)[i].1)
    {
      WritableIff(lib, parts[i]);
      HeldIfWritten(lib, parts[i], ImageOf(parts[i]).body);
    }
  }

  lemma HeldIfWritten(lib: Library, part: Component, body: Bytes)
    requires MayBeWritten(lib, part, body)
    ensures Holds(part, body)
  {
  }
}
