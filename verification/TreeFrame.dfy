/**
 The byte stream hashed for a runtime tree: every file contributes its path and its content, each
 behind an eight-byte big-endian length.
 */
module TreeFrame {
  import opened Common

  type Byte = b: int | 0 <= b < 256
  type Bytes = seq<Byte>

  const LIMIT: nat := 0x1_0000_0000_0000_0000

  function Power(k: nat): nat { if k == 0 then 1 else 256 * Power(k - 1) }

  /** Big-endian digits of n in k bytes. */
  function Digits(n: nat, k: nat): (r: Bytes)
    ensures |r| == k
  {
    if k == 0 then [] else Digits(n / 256, k - 1) + [n % 256]
  }

  function Value(s: Bytes): nat {
    if s == [] then 0 else Value(s[..|s| - 1]) * 256 + s[|s| - 1]
  }

  lemma {:induction false} DigitsValue(n: nat, k: nat)
    requires n < Power(k)
    ensures Value(Digits(n, k)) == n
  {
    if k > 0 {
      DigitsValue(n / 256, k - 1);
      assert Digits(n, k)[..k - 1] == Digits(n / 256, k - 1);
    }
  }

  /** The i-th of k bytes is the digit of weight 256^(k-1-i): most significant first. */
  lemma {:induction false} DigitAt(n: nat, k: nat, i: nat)
    requires i < k
    ensures Digits(n, k)[i] == Shifted(n, k - 1 - i) % 256
    decreases k
  {
    if i < k - 1 {
      DigitAt(n / 256, k - 1, i);
      ShiftOnce(n, k - 2 - i);
    }
  }

  /** n without its j lowest bytes. */
  function Shifted(n: nat, j: nat): nat { if j == 0 then n else Shifted(n, j - 1) / 256 }

  lemma {:induction false} ShiftOnce(n: nat, j: nat)
    ensures Shifted(n / 256, j) == Shifted(n, j + 1)
  {
    if j > 0 { ShiftOnce(n, j - 1); }
  }

  lemma EightBytes()
    ensures Power(8) == LIMIT
  {
  }

  function Frame(x: Bytes): Bytes { Digits(|x|, 8) + x }

  datatype File = File(path: Bytes, content: Bytes)

  predicate Fits(f: File) { |f.path| < LIMIT && |f.content| < LIMIT }

  function FileBytes(f: File): Bytes { Frame(f.path) + Frame(f.content) }

  /** Items written one after the other. */
  function WriteAll<T>(write: T -> Bytes, items: seq<T>): Bytes {
    if items == [] then [] else WriteAll(write, items[..|items| - 1]) + write(items[|items| - 1])
  }

  function Encode(files: seq<File>): Bytes { WriteAll(FileBytes, files) }

  /** Eight bytes that are n, most significant first. */
  predicate BigEndian(b: Bytes, n: nat) { |b| == 8 && forall i | 0 <= i < 8 :: b[i] == Shifted(n, 7 - i) % 256 }

  lemma {:induction false} EightDigits(n: nat)
    ensures BigEndian(Digits(n, 8), n)
  {
    forall i | 0 <= i < 8 ensures Digits(n, 8)[i] == Shifted(n, 7 - i) % 256 { DigitAt(n, 8, i); }
  }

  /** Byte by byte, what a file contributes: two big-endian lengths, each before its bytes. */
  lemma FileLayout(f: File)
    ensures
      var b, p := FileBytes(f), |f.path|;
      && |b| == 16 + p + |f.content|
      && BigEndian(b[..8], p) && b[8..8 + p] == f.path
      && BigEndian(b[8 + p..16 + p], |f.content|) && b[16 + p..] == f.content
  {
    var b, p, c := FileBytes(f), |f.path|, |f.content|;
    EightDigits(p);
    EightDigits(c);
    assert b == Digits(p, 8) + f.path + (Digits(c, 8) + f.content);
    assert b[..8] == Digits(p, 8) && b[8 + p..16 + p] == Digits(c, 8);
  }

  // ---------------------------------------------------------------- the reader

  /** One frame off the head of the stream, and the rest. */
  function Unframe(s: Bytes): Option<(Bytes, Bytes)> {
    if |s| < 8 then None
    else
      var n := Value(s[..8]);
      if |s| < 8 + n then None else Some((s[8..8 + n], s[8 + n..]))
  }

  function ReadFile(s: Bytes): Option<(File, Bytes)> {
    var p := Unframe(s);
    if p.None? then None
    else
      var c := Unframe(p.value.1);
      if c.None? then None else Some((File(p.value.0, c.value.0), c.value.1))
  }

  /** A stream read to its end, one item after the other. */
  function ReadAll<T>(read: Bytes -> Option<(T, Bytes)>, s: Bytes): Option<seq<T>>
    decreases |s|
  {
    if s == [] then Some([])
    else
      var r := read(s);
      if r.None? || |r.value.1| >= |s| then None
      else
        var rest := ReadAll(read, r.value.1);
        if rest.None? then None else Some([r.value.0] + rest.value)
  }

  function Decode(s: Bytes): Option<seq<File>> { ReadAll(ReadFile, s) }

  lemma UnframeFrame(x: Bytes, rest: Bytes)
    requires |x| < LIMIT
    ensures Unframe(Frame(x) + rest) == Some((x, rest))
  {
    EightBytes();
    DigitsValue(|x|, 8);
    var s := Frame(x) + rest;
    assert s[..8] == Digits(|x|, 8);
    assert s[8..8 + |x|] == x && s[8 + |x|..] == rest;
  }

  lemma ReadFileBytes(f: File, rest: Bytes)
    requires Fits(f)
    ensures ReadFile(FileBytes(f) + rest) == Some((f, rest))
  {
    UnframeFrame(f.path, Frame(f.content) + rest);
    UnframeFrame(f.content, rest);
    assert FileBytes(f) + rest == Frame(f.path) + (Frame(f.content) + rest);
  }

  predicate Inverts<T(==)>(write: T -> Bytes, read: Bytes -> Option<(T, Bytes)>, x: T, rest: Bytes) {
    write(x) != [] && read(write(x) + rest) == Some((x, rest))
  }

  /** Reading undoes writing as soon as it does so item by item, whatever follows. */
  lemma {:induction false} ReadUndoesWrite<T>(write: T -> Bytes, read: Bytes -> Option<(T, Bytes)>,
                                              items: seq<T>, rest: Bytes)
    requires forall x, r | x in items :: Inverts(write, read, x, r)
    requires ReadAll(read, rest).Some?
    ensures ReadAll(read, WriteAll(write, items) + rest) == Some(items + ReadAll(read, rest).value)
    decreases |items|
  {
    if items == [] {
      assert WriteAll(write, items) + rest == rest;
      assert items + ReadAll(read, rest).value == ReadAll(read, rest).value;
    } else {
      var n := |items| - 1;
      var x := items[n];
      var more := write(x) + rest;
      assert x in items && Inverts(write, read, x, rest);
      assert ReadAll(read, more) == Some([x] + ReadAll(read, rest).value);
      forall y, r | y in items[..n] ensures Inverts(write, read, y, r) { assert y in items; }
      ReadUndoesWrite(write, read, items[..n], more);
      assert WriteAll(write, items) + rest == WriteAll(write, items[..n]) + more;
      assert items[..n] + ([x] + ReadAll(read, rest).value) == items + ReadAll(read, rest).value;
    }
  }

  lemma DecodeEncode(files: seq<File>, rest: Bytes)
    requires (forall f | f in files :: Fits(f)) && Decode(rest).Some?
    ensures Decode(Encode(files) + rest) == Some(files + Decode(rest).value)
  {
    forall f, r | f in files ensures Inverts(FileBytes, ReadFile, f, r) { ReadFileBytes(f, r); }
    ReadUndoesWrite(FileBytes, ReadFile, files, rest);
  }

  /** Main result: the stream determines the list of paths and contents; no two lists share one. */
  lemma StreamIsInjective(a: seq<File>, b: seq<File>)
    requires forall f | f in a :: Fits(f)
    requires forall f | f in b :: Fits(f)
    ensures Encode(a) == Encode(b) <==> a == b
  {
    DecodeEncode(a, []);
    DecodeEncode(b, []);
    assert Encode(a) + [] == Encode(a) && Encode(b) + [] == Encode(b);
    assert a + [] == a && b + [] == b;
  }

  lemma {:induction false} EncodeHead(files: seq<File>)
    requires files != []
    ensures Encode(files) == FileBytes(files[0]) + Encode(files[1..])
  {
    var n := |files| - 1;
    if n > 0 {
      EncodeHead(files[..n]);
      assert files[1..][..n - 1] == files[..n][1..];
    } else {
      assert files[..0] == [] == files[1..];
    }
  }

  lemma {:induction false} EncodeAppend(a: seq<File>, b: seq<File>)
    ensures Encode(a + b) == Encode(a) + Encode(b)
  {
    if b == [] {
      assert a + b == a;
    } else {
      assert (a + b)[..|a + b| - 1] == a + b[..|b| - 1];
      EncodeAppend(a, b[..|b| - 1]);
    }
  }

  lemma SameHead(x: File, y: File, s: Bytes, t: Bytes)
    requires Fits(x) && Fits(y) && FileBytes(x) + s == FileBytes(y) + t
    ensures x == y && s == t
  {
    ReadFileBytes(x, s);
    ReadFileBytes(y, t);
  }

  lemma PrefixSplits(x: Bytes, tail: Bytes, s: Bytes)
    requires x + tail <= s
    ensures s == x + s[|x|..] && tail <= s[|x|..]
  {
    assert s[..|x + tail|] == x + tail;
    assert s[|x|..][..|tail|] == (x + tail)[|x|..];
  }

  lemma FileStep(x: File, y: File, s: Bytes, t: Bytes)
    requires Fits(x) && Fits(y) && FileBytes(x) + s <= FileBytes(y) + t
    ensures x == y && s <= t
  {
    var whole := FileBytes(y) + t;
    PrefixSplits(FileBytes(x), s, whole);
    SameHead(x, y, whole[|FileBytes(x)|..], t);
  }

  /** Streams extend one another exactly as their lists do: a stream cut anywhere but after a file is no stream. */
  lemma StreamExtends(a: seq<File>, b: seq<File>)
    requires forall f | f in a :: Fits(f)
    requires forall f | f in b :: Fits(f)
    ensures Encode(a) <= Encode(b) <==> a <= b
  {
    if a <= b {
      assert b == a + b[|a|..];
      EncodeAppend(a, b[|a|..]);
    }
    if Encode(a) <= Encode(b) { StreamShrinks(a, b); }
  }

  lemma {:induction false} StreamShrinks(a: seq<File>, b: seq<File>)
    requires forall f | f in a :: Fits(f)
    requires forall f | f in b :: Fits(f)
    requires Encode(a) <= Encode(b)
    ensures a <= b
    decreases |a|
  {
    if a != [] {
      EncodeHead(a);
      assert |Encode(a)| > 0 && b != [];
      EncodeHead(b);
      assert a[0] in a && b[0] in b;
      FileStep(a[0], b[0], Encode(a[1..]), Encode(b[1..]));
      StreamShrinks(a[1..], b[1..]);
      assert a == [a[0]] + a[1..] && b == [b[0]] + b[1..];
    }
  }

  // ---------------------------------------------------------------- the walk

  datatype Kind = Regular(content: Bytes) | Directory | Unsafe

  /** A member below the root: its first component, whether it is that component, and its kind. */
  datatype Member = Member(top: string, isTop: bool, path: Bytes, kind: Kind)

  /** Members that make the digest raise, whether excluded or not. */
  predicate Raises(m: Member, excluded: set<string>) {
    || m.kind.Unsafe?
    || (m.isTop && m.top in excluded && !m.kind.Directory?)
    || (m.kind.Regular? && !Fits(File(m.path, m.kind.content)))
  }

  predicate AnyRaises(members: seq<Member>, excluded: set<string>) { exists m | m in members :: Raises(m, excluded) }

  /** What one member adds to the list of hashed files. */
  function Contribution(m: Member, excluded: set<string>): seq<File> {
    if m.kind.Regular? && m.top !in excluded then [File(m.path, m.kind.content)] else []
  }

  function Listing(members: seq<Member>, excluded: set<string>): seq<File> {
    if members == [] then []
    else Listing(members[..|members| - 1], excluded) + Contribution(members[|members| - 1], excluded)
  }

  predicate Listed(m: Member, excluded: set<string>) { m.kind.Regular? && m.top !in excluded }

  /** The listing is the members read at these positions, left to right. */
  predicate ListedAt(members: seq<Member>, at: seq<nat>, files: seq<File>) {
    && |at| == |files|
    && (forall i | 0 <= i < |at| ::
          at[i] < |members| && members[at[i]].kind.Regular?
          && files[i] == File(members[at[i]].path, members[at[i]].kind.content))
    && (forall i, j | 0 <= i < j < |at| :: at[i] < at[j])
  }

  /** Every regular file outside the excluded tops is listed once, in order, and nothing else is. */
  lemma {:induction false} ListingExactly(members: seq<Member>, excluded: set<string>) returns (at: seq<nat>)
    ensures ListedAt(members, at, Listing(members, excluded))
    ensures forall x: nat | x < |members| :: x in at <==> Listed(members[x], excluded)
  {
    if members == [] {
      at := [];
    } else {
      var n := |members| - 1;
      var rest := ListingExactly(members[..n], excluded);
      at := rest + (if Listed(members[n], excluded) then [n] else []);
      ListedSnoc(members, rest, excluded);
      forall x: nat | x < |members| ensures x in at <==> Listed(members[x], excluded) {
        if x < n { assert members[..n][x] == members[x]; } else { assert n !in rest; }
      }
    }
  }

  lemma {:induction false} ListedSnoc(members: seq<Member>, rest: seq<nat>, excluded: set<string>)
    requires members != []
    requires
      var n := |members| - 1;
      ListedAt(members[..n], rest, Listing(members[..n], excluded))
    ensures
      var n := |members| - 1;
      var at := rest + (if Listed(members[n], excluded) then [n] else []);
      ListedAt(members, at, Listing(members, excluded)) && n !in rest
  {
    var n := |members| - 1;
    forall i | 0 <= i < |rest| ensures rest[i] < n && members[..n][rest[i]] == members[rest[i]] {}
  }

  /** The recursive digests of the excluded subtrees matter only for what they refuse. */
  method CheckExcluded(members: seq<Member>, excluded: set<string>) returns (ok: bool)
    ensures ok <==> forall m | m in members && m.top in excluded :: !Raises(m, excluded)
  {
    var n := 0;
    while n < |members|
      invariant 0 <= n <= |members|
      invariant forall x | 0 <= x < n && members[x].top in excluded :: !Raises(members[x], excluded)
    {
      if members[n].top in excluded && Raises(members[n], excluded) { return false; }
      n := n + 1;
    }
    return true;
  }

  /** The four updates one regular file makes to the running hash input. */
  method Feed(stream: Bytes, f: File, ghost listed: seq<File>) returns (next: Bytes)
    requires stream == Encode(listed)
    ensures next == Encode(listed + [f])
  {
    next := stream + Digits(|f.path|, 8);
    next := next + f.path;
    next := next + Digits(|f.content|, 8);
    next := next + f.content;
    assert (listed + [f])[..|listed|] == listed;
    assert next == stream + FileBytes(f);
  }

  /** One turn of the walk: skip, refuse, or feed a file to the hash. */
  method Visit(m: Member, excluded: set<string>, stream: Bytes, ghost listed: seq<File>) returns (r: Result<Bytes>)
    requires stream == Encode(listed) && (m.top in excluded ==> !Raises(m, excluded))
    ensures r == if Raises(m, excluded) then Err else Ok(Encode(listed + Contribution(m, excluded)))
  {
    assert listed + [] == listed;
    if m.top in excluded { return Ok(stream); }
    if m.kind.Unsafe? { return Err; }
    if m.kind.Directory? { return Ok(stream); }
    var content := m.kind.content;
    if |m.path| >= LIMIT || |content| >= LIMIT { return Err; }
    var next := Feed(stream, File(m.path, content), listed);
    return Ok(next);
  }

  /** _tree_digest: excluded subtrees are checked first, then the sorted members are fed to the hash. */
  method TreeStream(members: seq<Member>, excluded: set<string>) returns (r: Result<Bytes>)
    ensures r == if AnyRaises(members, excluded) then Err else Ok(Encode(Listing(members, excluded)))
    ensures r.Err? <==> exists m | m in members ::
      || m.kind.Unsafe? || (m.isTop && m.top in excluded && !m.kind.Directory?)
      || (m.kind.Regular? && (|m.path| >= LIMIT || |m.kind.content| >= LIMIT))
  {
    var safe := CheckExcluded(members, excluded);
    if !safe {
      assert AnyRaises(members, excluded);
      return Err;
    }
    r := Ok([]);
    ghost var listed: seq<File> := [];
    var n := 0;
    while n < |members|
      invariant 0 <= n <= |members|
      invariant !AnyRaises(members[..n], excluded)
      invariant listed == Listing(members[..n], excluded)
      invariant r == Ok(Encode(listed))
    {
      RaisesSnoc(members, n, excluded);
      r := Visit(members[n], excluded, r.value, listed);
      if r.Err? { return Err; }
      ListingSnoc(members, n, excluded);
      listed := listed + Contribution(members[n], excluded);
      n := n + 1;
    }
    assert members[..|members|] == members;
  }

  lemma RaisesSnoc(members: seq<Member>, n: nat, excluded: set<string>)
    requires n < |members|
    ensures AnyRaises(members[..n + 1], excluded) <==>
            AnyRaises(members[..n], excluded) || Raises(members[n], excluded)
    ensures members[n] in members && (Raises(members[n], excluded) ==> AnyRaises(members, excluded))
  {
    assert members[..n + 1] == members[..n] + [members[n]];
    assert members[n] in members;
  }

  lemma {:induction false} ListingSnoc(members: seq<Member>, n: nat, excluded: set<string>)
    requires n < |members|
    ensures Listing(members[..n + 1], excluded) == Listing(members[..n], excluded) + Contribution(members[n], excluded)
  {
    assert members[..n + 1][..n] == members[..n];
  }
}
