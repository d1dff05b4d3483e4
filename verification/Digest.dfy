/**
 The byte stream behind the file-set digest: paths in sorted order, each path and
 content as UTF-8 behind an 8-byte big-endian length. A text is a list of code points.
 */
module Digest {
  import opened Wrappers

  type Byte = b: int | 0 <= b < 0x100
  type CodePoint = c: int | 0 <= c < 0x11_0000
  type Bytes = seq<Byte>
  type Text = seq<CodePoint>

  const LENGTH_LIMIT: nat := 0x1_0000_0000_0000_0000

  /** UnicodeEncodeError and OverflowError. */
  datatype Failure = Unencodable | TooLong

  // -------------------------------------------------------------------- UTF-8

  predicate IsSurrogate(c: CodePoint) {
    0xD800 <= c < 0xE000
  }

  predicate Encodable(t: Text) {
    forall i | 0 <= i < |t| :: !IsSurrogate(t[i])
  }

  function Utf8One(c: CodePoint): Bytes {
    if c < 0x80 then [c]
    else if c < 0x800 then [0xC0 + c / 0x40, 0x80 + c % 0x40]
    else if c < 0x1_0000 then [0xE0 + c / 0x1000, 0x80 + c / 0x40 % 0x40, 0x80 + c % 0x40]
    else [0xF0 + c / 0x4_0000, 0x80 + c / 0x1000 % 0x40, 0x80 + c / 0x40 % 0x40, 0x80 + c % 0x40]
  }

  function Utf8(t: Text): Bytes {
    if t == [] then [] else Utf8One(t[0]) + Utf8(t[1..])
  }

  /** How many bytes a code point with this first byte takes. */
  function Width(lead: Byte): nat {
    if lead < 0xC0 then 1 else if lead < 0xE0 then 2 else if lead < 0xF0 then 3 else 4
  }

  function DecodeOne(s: Bytes): int
    requires s != [] && |s| == Width(s[0])
  {
    var lead: int := s[0];
    if |s| == 1 then lead
    else if |s| == 2 then (lead - 0xC0) * 0x40 + Low(s[1])
    else if |s| == 3 then (lead - 0xE0) * 0x1000 + Low(s[1]) * 0x40 + Low(s[2])
    else (lead - 0xF0) * 0x4_0000 + Low(s[1]) * 0x1000 + Low(s[2]) * 0x40 + Low(s[3])
  }

  /** The payload of a continuation byte. */
  function Low(b: Byte): int {
    b - 0x80
  }

  function DecodeUtf8(s: Bytes): Option<Text> {
    if s == [] then Some([])
    else
      var width := Width(s[0]);
      if |s| < width then None
      else
        var c := DecodeOne(s[..width]);
        var rest := DecodeUtf8(s[width..]);
        if rest.None? || !(0 <= c < 0x11_0000) then None else Some([c] + rest.value)
  }

  lemma DecodesOne(c: CodePoint)
    ensures Utf8One(c) != [] && |Utf8One(c)| == Width(Utf8One(c)[0])
    ensures DecodeOne(Utf8One(c)) == c
  {
    assert c == c / 0x40 * 0x40 + c % 0x40;
    assert c / 0x40 == c / 0x1000 * 0x40 + c / 0x40 % 0x40;
    assert c / 0x1000 == c / 0x4_0000 * 0x40 + c / 0x1000 % 0x40;
  }

  lemma {:induction false} DecodesUtf8(t: Text)
    ensures DecodeUtf8(Utf8(t)) == Some(t)
  {
    if t != [] {
      var one, rest := Utf8One(t[0]), Utf8(t[1..]);
      DecodesOne(t[0]);
      DecodesUtf8(t[1..]);
      assert (one + rest)[0] == one[0] && t == [t[0]] + t[1..];
      assert (one + rest)[..|one|] == one && (one + rest)[|one|..] == rest;
    }
  }

  predicate IsTail(b: Byte) {
    0x80 <= b < 0xC0
  }

  /** The byte sequences that section 4 of RFC 3629 allows for one character. */
  predicate IsUtf8Char(s: Bytes) {
    match |s|
    case 1 => s[0] < 0x80
    case 2 => 0xC2 <= s[0] < 0xE0 && IsTail(s[1])
    case 3 =>
      && IsTail(s[1]) && IsTail(s[2])
      && ((s[0] == 0xE0 && s[1] >= 0xA0) || 0xE1 <= s[0] < 0xED || (s[0] == 0xED && s[1] < 0xA0) || 0xEE <= s[0] < 0xF0)
    case 4 =>
      && IsTail(s[1]) && IsTail(s[2]) && IsTail(s[3])
      && ((s[0] == 0xF0 && s[1] >= 0x90) || 0xF1 <= s[0] < 0xF4 || (s[0] == 0xF4 && s[1] < 0x90))
    case _ => false
  }

  /** Exactly the code points that can be encoded yield such a sequence. */
  lemma EncodableIffUtf8Char(c: CodePoint)
    ensures Encodable([c]) <==> IsUtf8Char(Utf8One(c))
  {
    assert [c][0] == c;
  }

  // ------------------------------------------------------------------ framing

  function BigEndian(n: nat, width: nat): Bytes {
    if width == 0 then [] else BigEndian(n / 0x100, width - 1) + [n % 0x100]
  }

  function FromBigEndian(s: Bytes): nat {
    if s == [] then 0 else FromBigEndian(s[..|s| - 1]) * 0x100 + s[|s| - 1]
  }

  function Power(width: nat): nat {
    if width == 0 then 1 else Power(width - 1) * 0x100
  }

  lemma {:induction false} ReadsBigEndian(n: nat, width: nat)
    requires n < Power(width)
    ensures |BigEndian(n, width)| == width && FromBigEndian(BigEndian(n, width)) == n
  {
    if width > 0 { ReadsBigEndian(n / 0x100, width - 1); }
  }

  function Framed(s: Bytes): Bytes {
    BigEndian(|s|, 8) + s
  }

  /** The first frame of a stream and what follows it. */
  function Unframe(s: Bytes): Option<(Bytes, Bytes)> {
    if |s| < 8 then None
    else
      var length := FromBigEndian(s[..8]);
      if |s| < 8 + length then None else Some((s[8..8 + length], s[8 + length..]))
  }

  lemma Unframes(s: Bytes, rest: Bytes)
    requires |s| < LENGTH_LIMIT
    ensures Unframe(Framed(s) + rest) == Some((s, rest))
  {
    var length := BigEndian(|s|, 8);
    assert Power(8) == LENGTH_LIMIT;
    ReadsBigEndian(|s|, 8);
    var stream := Framed(s) + rest;
    assert stream[..8] == length && stream[8..8 + |s|] == s && stream[8 + |s|..] == rest;
  }

  // ------------------------------------------------------------------- stream

  predicate Digestible(t: Text) {
    Encodable(t) && |Utf8(t)| < LENGTH_LIMIT
  }

  /** What one file adds to the stream, or the exception it raises. */
  function Record(path: Text, content: Text): Result<Bytes, Failure> {
    if !Encodable(content) || !Encodable(path) then Err(Unencodable)
    else if |Utf8(path)| >= LENGTH_LIMIT || |Utf8(content)| >= LENGTH_LIMIT then Err(TooLong)
    else Ok(Framed(Utf8(path)) + Framed(Utf8(content)))
  }

  /** The records of `paths` in order; the first failure wins. */
  function Stream(paths: seq<Text>, files: map<Text, Text>): Result<Bytes, Failure>
    requires forall p | p in paths :: p in files
  {
    if paths == [] then Ok([])
    else
      var record := Record(paths[0], files[paths[0]]);
      if record.Err? then record
      else
        var rest := Stream(paths[1..], files);
        if rest.Err? then rest else Ok(record.value + rest.value)
  }

  /** Reads a stream back into the file set it was made from. */
  function Decode(s: Bytes): Option<map<Text, Text>>
    decreases |s|
  {
    if s == [] then Some(map[])
    else
      var first := Unframe(s);
      if first.None? then None
      else
        var second := Unframe(first.value.1);
        if second.None? then None
        else
          var path, content := DecodeUtf8(first.value.0), DecodeUtf8(second.value.0);
          var rest := Decode(second.value.1);
          if path.None? || content.None? || rest.None? then None
          else Some(rest.value[path.value := content.value])
  }

  ghost predicate DistinctTexts(paths: seq<Text>) {
    forall i, j | 0 <= i < j < |paths| :: paths[i] != paths[j]
  }

  /** The paths of a file set, each once: the order in which a dict was filled. */
  ghost predicate Lists(paths: seq<Text>, files: map<Text, Text>) {
    DistinctTexts(paths) && forall p :: p in paths <==> p in files
  }

  /** A record at the head of a stream decodes to its file. */
  lemma DecodesRecord(path: Text, content: Text, rest: Bytes)
    requires Record(path, content).Ok? && Decode(rest).Some?
    ensures Decode(Record(path, content).value + rest) == Some(Decode(rest).value[path := content])
  {
    var tail := Framed(Utf8(content)) + rest;
    var stream := Record(path, content).value + rest;
    assert stream == Framed(Utf8(path)) + tail;
    Unframes(Utf8(path), tail);
    Unframes(Utf8(content), rest);
    assert |stream| >= |Framed(Utf8(path))| > 0;
    DecodesUtf8(path);
    DecodesUtf8(content);
  }

  /** The files of a list of paths. */
  function Pick(paths: seq<Text>, files: map<Text, Text>): map<Text, Text>
    requires forall p | p in paths :: p in files
  {
    if paths == [] then map[] else Pick(paths[1..], files)[paths[0] := files[paths[0]]]
  }

  lemma {:induction false} PickIsRestriction(paths: seq<Text>, files: map<Text, Text>)
    requires forall p | p in paths :: p in files
    ensures forall p :: p in Pick(paths, files) <==> p in paths
    ensures forall p | p in paths :: Pick(paths, files)[p] == files[p]
  {
    if paths != [] {
      PickIsRestriction(paths[1..], files);
      assert paths == [paths[0]] + paths[1..];
    }
  }

  lemma {:induction false} DecodesStream(paths: seq<Text>, files: map<Text, Text>)
    requires (forall p | p in paths :: p in files) && Stream(paths, files).Ok?
    ensures Decode(Stream(paths, files).value) == Some(Pick(paths, files))
  {
    if paths != [] {
      DecodesStream(paths[1..], files);
      DecodesRecord(paths[0], files[paths[0]], Stream(paths[1..], files).value);
    }
  }

  lemma {:induction false} StreamSucceedsIff(paths: seq<Text>, files: map<Text, Text>)
    requires forall p | p in paths :: p in files
    ensures Stream(paths, files).Ok? <==> forall p | p in paths :: Digestible(p) && Digestible(files[p])
  {
    if paths != [] {
      var first, rest := paths[0], paths[1..];
      StreamSucceedsIff(rest, files);
      assert paths == [first] + rest;
      assert Stream(paths, files).Ok? <==> Record(first, files[first]).Ok? && Stream(rest, files).Ok?;
      assert Record(first, files[first]).Ok? <==> Digestible(first) && Digestible(files[first]);
    }
  }

  // ------------------------------------------------------------------ sorting

  /** Python's order on strings: by code point, a prefix first. */
  predicate Before(p: Text, q: Text) {
    q != [] && (p == [] || p[0] < q[0] || (p[0] == q[0] && Before(p[1..], q[1..])))
  }

  lemma {:induction false} BeforeIsTotal(p: Text, q: Text)
    ensures p == q || Before(p, q) || Before(q, p)
    ensures Before(p, q) ==> p != q && !Before(q, p)
  {
    if p != [] && q != [] && p[0] == q[0] {
      BeforeIsTotal(p[1..], q[1..]);
      assert p == [p[0]] + p[1..] && q == [q[0]] + q[1..];
    }
  }

  lemma {:induction false} BeforeIsTransitive(p: Text, q: Text, r: Text)
    requires Before(p, q) && Before(q, r)
    ensures Before(p, r)
  {
    if p != [] && p[0] == q[0] && q[0] == r[0] {
      BeforeIsTransitive(p[1..], q[1..], r[1..]);
    }
  }

  /** `p` and `q` agree up to `k`, where `p` ends or has the smaller code point. */
  predicate DecidedAt(p: Text, q: Text, k: nat) {
    k <= |p| && k < |q| && p[..k] == q[..k] && (k == |p| || p[k] < q[k])
  }

  /** The order is lexicographic: decided at the first place where the texts differ. */
  lemma {:induction false} BeforeIsLexicographic(p: Text, q: Text)
    ensures Before(p, q) <==> exists k: nat :: DecidedAt(p, q, k)
  {
    forall k: nat | k > 0 && DecidedAt(p, q, k) ensures p[0] == q[0] {
      assert p[..k][0] == q[..k][0];
    }
    if p != [] && q != [] && p[0] == q[0] {
      BeforeIsLexicographic(p[1..], q[1..]);
      if k: nat :| DecidedAt(p[1..], q[1..], k) {
        assert p[..k + 1] == [p[0]] + p[1..][..k] && q[..k + 1] == [q[0]] + q[1..][..k];
        assert DecidedAt(p, q, k + 1);
      }
      if k: nat :| DecidedAt(p, q, k) {
        assert k > 0 && p[1..][..k - 1] == p[..k][1..] && q[1..][..k - 1] == q[..k][1..];
        assert DecidedAt(p[1..], q[1..], k - 1);
      }
    } else if Before(p, q) {
      assert DecidedAt(p, q, 0);
    }
  }

  ghost predicate Ascending(paths: seq<Text>) {
    forall i, j | 0 <= i < j < |paths| :: Before(paths[i], paths[j])
  }

  function InsertPath(p: Text, paths: seq<Text>): seq<Text> {
    if paths == [] || Before(p, paths[0]) then [p] + paths else [paths[0]] + InsertPath(p, paths[1..])
  }

  function SortPaths(paths: seq<Text>): seq<Text> {
    if paths == [] then [] else InsertPath(paths[0], SortPaths(paths[1..]))
  }

  lemma {:induction false} InsertAscends(p: Text, paths: seq<Text>)
    requires Ascending(paths) && p !in paths
    ensures Ascending(InsertPath(p, paths))
    ensures forall q :: q in InsertPath(p, paths) <==> q == p || q in paths
  {
    if paths != [] {
      var first, rest := paths[0], paths[1..];
      assert paths == [first] + rest;
      BeforeIsTotal(p, first);
      if Before(p, first) {
        forall q | q in rest ensures Before(p, q) {
          assert Before(first, q);
          BeforeIsTransitive(p, first, q);
        }
      } else {
        InsertAscends(p, rest);
        var inserted := InsertPath(p, rest);
        assert forall i | 0 <= i < |inserted| :: inserted[i] in inserted && (inserted[i] == p || inserted[i] in rest);
      }
    }
  }

  lemma {:induction false} SortAscends(paths: seq<Text>)
    requires DistinctTexts(paths)
    ensures Ascending(SortPaths(paths))
    ensures forall q :: q in SortPaths(paths) <==> q in paths
  {
    if paths != [] {
      SortAscends(paths[1..]);
      InsertAscends(paths[0], SortPaths(paths[1..]));
      assert paths == [paths[0]] + paths[1..];
    }
  }

  lemma AscendingIsDistinct(paths: seq<Text>)
    requires Ascending(paths)
    ensures DistinctTexts(paths)
  {
    forall i, j | 0 <= i < j < |paths| ensures paths[i] != paths[j] {
      BeforeIsTotal(paths[i], paths[j]);
    }
  }

  /** An ascending list is determined by its elements. */
  lemma {:induction false} AscendingIsUnique(p: seq<Text>, q: seq<Text>)
    requires Ascending(p) && Ascending(q) && forall x :: x in p <==> x in q
    ensures p == q
  {
    assert q == [] || q[0] in q;
    if p != [] {
      assert p[0] in q && q[0] in p;
      BeforeIsTotal(p[0], q[0]);
      AscendingIsDistinct(p);
      AscendingIsDistinct(q);
      forall x ensures x in p[1..] <==> x in q[1..] {
        assert x in p[1..] <==> x in p && x != p[0];
        assert x in q[1..] <==> x in q && x != q[0];
      }
      AscendingIsUnique(p[1..], q[1..]);
      assert p == [p[0]] + p[1..] && q == [q[0]] + q[1..];
    }
  }

  // ------------------------------------------------------------------- digest

  /** The stream of a file set listed in some order: the records of the sorted paths. */
  function SortedStream(order: seq<Text>, files: map<Text, Text>): Result<Bytes, Failure>
    requires Lists(order, files)
  {
    SortAscends(order);
    Stream(SortPaths(order), files)
  }

  /** The stream can be read back into the exact file set. */
  lemma StreamRoundTrip(order: seq<Text>, files: map<Text, Text>)
    requires Lists(order, files) && SortedStream(order, files).Ok?
    ensures Decode(SortedStream(order, files).value) == Some(files)
  {
    SortAscends(order);
    DecodesStream(SortPaths(order), files);
    PickIsRestriction(SortPaths(order), files);
    assert Pick(SortPaths(order), files) == files;
  }

  /** The stream exists exactly when every path and content has a UTF-8 form shorter than 2^64. */
  lemma StreamExistsIff(order: seq<Text>, files: map<Text, Text>)
    requires Lists(order, files)
    ensures SortedStream(order, files).Ok? <==> forall p | p in files :: Digestible(p) && Digestible(files[p])
  {
    SortAscends(order);
    StreamSucceedsIff(SortPaths(order), files);
  }

  /** If there is no stream, the first file in path order that has no record decides which exception is raised. */
  lemma {:induction false} FirstFailureWins(paths: seq<Text>, files: map<Text, Text>) returns (i: nat)
    requires (forall p | p in paths :: p in files) && Stream(paths, files).Err?
    ensures i < |paths| && forall j | 0 <= j < i :: Digestible(paths[j]) && Digestible(files[paths[j]])
    ensures !Digestible(paths[i]) || !Digestible(files[paths[i]])
    ensures Stream(paths, files).error == if Encodable(paths[i]) && Encodable(files[paths[i]]) then TooLong else Unencodable
  {
    if Record(paths[0], files[paths[0]]).Err? {
      i := 0;
    } else {
      var rest := paths[1..];
      i := FirstFailureWins(rest, files);
      i := i + 1;
    }
  }

  /** The order in which the dict was filled leaves no trace. */
  lemma StreamIsCanonical(order: seq<Text>, other: seq<Text>, files: map<Text, Text>)
    requires Lists(order, files) && Lists(other, files)
    ensures SortedStream(order, files) == SortedStream(other, files)
  {
    SortAscends(order);
    SortAscends(other);
    AscendingIsUnique(SortPaths(other), SortPaths(order));
  }

  /** Two file sets that feed the hash the same stream are the same file set. */
  lemma StreamIsInjective(order: seq<Text>, files: map<Text, Text>, other: seq<Text>, others: map<Text, Text>)
    requires Lists(order, files) && Lists(other, others) && SortedStream(order, files).Ok?
    ensures SortedStream(order, files) == SortedStream(other, others) <==> files == others
  {
    if SortedStream(order, files) == SortedStream(other, others) {
      StreamRoundTrip(order, files);
      StreamRoundTrip(other, others);
    }
    if files == others { StreamIsCanonical(order, other, files); }
  }

  function Prepend(prefix: Bytes, r: Result<Bytes, Failure>): Result<Bytes, Failure> {
    if r.Err? then r else Ok(prefix + r.value)
  }

  lemma PrependNothing(r: Result<Bytes, Failure>)
    ensures Prepend([], r) == r
  {
    if r.Ok? { assert [] + r.value == r.value; }
  }

  /** One turn of the loop: a record moves from what remains to what is written. */
  lemma WriteRecord(written: Bytes, paths: seq<Text>, i: nat, files: map<Text, Text>)
    requires (forall p | p in paths :: p in files) && i < |paths|
    ensures var record := Record(paths[i], files[paths[i]]);
      Prepend(written, Stream(paths[i..], files)) ==
        if record.Err? then record else Prepend(written + record.value, Stream(paths[i + 1..], files))
  {
    assert paths[i..][0] == paths[i] && paths[i..][1..] == paths[i + 1..];
    var record, rest := Record(paths[i], files[paths[i]]), Stream(paths[i + 1..], files);
    if record.Ok? && rest.Ok? {
      assert written + (record.value + rest.value) == written + record.value + rest.value;
    }
  }

  /** The hasher's loop over the sorted paths. */
  method FeedRecords(paths: seq<Text>, files: map<Text, Text>) returns (fed: Result<Bytes, Failure>)
    requires forall p | p in paths :: p in files
    ensures fed == Stream(paths, files)
  {
    var written: Bytes := [];
    assert paths[0..] == paths;
    PrependNothing(Stream(paths, files));
    var i := 0;
    while i < |paths|
      invariant 0 <= i <= |paths|
      invariant Stream(paths, files) == Prepend(written, Stream(paths[i..], files))
    {
      WriteRecord(written, paths, i, files);
      var record := Record(paths[i], files[paths[i]]);
      if record.Err? { return record; }
      written := written + record.value;
      i := i + 1;
    }
    assert paths[i..] == [] && written + [] == written;
    fed := Ok(written);
  }

  /** `order` is the order in which the dict `files` was filled. */
  method DigestFiles(order: seq<Text>, files: map<Text, Text>) returns (fed: Result<Bytes, Failure>)
    requires Lists(order, files)
    ensures fed == SortedStream(order, files)
    ensures fed.Ok? ==> Decode(fed.value) == Some(files)
    ensures fed.Ok? <==> forall p | p in files :: Digestible(p) && Digestible(files[p])
  {
    SortAscends(order);
    fed := FeedRecords(SortPaths(order), files);
    StreamExistsIff(order, files);
    if fed.Ok? { StreamRoundTrip(order, files); }
  }
}
