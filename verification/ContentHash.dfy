/**
  The fingerprint of the simulation's content (`src/game/content_hash.cpp`): paths and
  texts, line endings normalised, each framed by its length and hashed as one stream.
*/
module ContentHash {
  import opened Fnv

  type Text = seq<Byte>

  /** One entry of the content map, which iterates in the order of its paths. */
  datatype File = File(path: Text, contents: Text)

  const CR: Byte := 13
  const LF: Byte := 10

  const FOLDERS: seq<string> := ["play/tuning", "play/progression", "play/items", "interface/fonts", "world/courses"]

  /** ASCII text as bytes. */
  function Ascii(s: string): Text {
    seq(|s|, k requires 0 <= k < |s| => (s[k] as int % 256) as Byte)
  }

  predicate StartsWith(t: Text, prefix: Text) {
    prefix <= t
  }

  predicate EndsWith(t: Text, suffix: Text) {
    |suffix| <= |t| && t[|t| - |suffix|..] == suffix
  }

  predicate IsSimulationFile(path: Text) {
    EndsWith(path, Ascii(".json")) && exists k :: 0 <= k < |FOLDERS| && StartsWith(path, Ascii(FOLDERS[k] + "/"))
  }

  // ---- Line endings ----

  /** Whether the byte at `i` counts: all but a carriage return right before a line feed. */
  predicate Counts(t: Text, i: nat)
    requires i < |t|
  {
    t[i] != CR || i + 1 == |t| || t[i + 1] != LF
  }

  function Normal(t: Text): Text {
    if t == [] then [] else (if Counts(t, 0) then [t[0]] else []) + Normal(t[1..])
  }

  /** A carriage return put before every line feed. */
  function Crlf(t: Text): Text {
    if t == [] then [] else (if t[0] == LF then [CR, LF] else [t[0]]) + Crlf(t[1..])
  }

  /** Text with any line endings agrees with the same text with carriage returns put in. */
  lemma {:induction false} CrlfNormal(t: Text)
    ensures Normal(Crlf(t)) == t
  {
    if t != [] {
      hide Normal;
      var rest := Crlf(t[1..]);
      CrlfNormal(t[1..]);
      CrlfFirst(t[1..]);
      assert t == [t[0]] + t[1..];
      if t[0] == LF {
        assert Crlf(t) == [CR] + ([LF] + rest);
        NormalOfPair(CR, [LF] + rest);
        NormalOfPair(LF, rest);
      } else {
        NormalOfPair(t[0], rest);
      }
    }
  }

  lemma CrlfFirst(t: Text)
    ensures Crlf(t) != [] ==> Crlf(t)[0] != LF
  {}

  lemma NormalOfPair(c: Byte, rest: Text)
    ensures Normal([c] + rest) == if c == CR && rest != [] && rest[0] == LF then Normal(rest) else [c] + Normal(rest)
  {
    assert ([c] + rest)[1..] == rest;
  }

  /** No carriage return right before a line feed. */
  predicate IsLf(t: Text) {
    forall i | 0 <= i < |t| :: Counts(t, i)
  }

  lemma {:induction false} LfNormal(t: Text)
    ensures |Normal(t)| <= |t| && (Normal(t) == t <==> IsLf(t))
  {
    if t != [] {
      LfNormal(t[1..]);
      assert forall i | 0 <= i < |t| - 1 :: Counts(t[1..], i) == Counts(t, i + 1);
      if Counts(t, 0) {
        assert t == [t[0]] + t[1..];
        assert Normal(t)[1..] == Normal(t[1..]);
        if IsLf(t[1..]) {
          assert forall i | 1 <= i < |t| :: Counts(t, i) by {
            forall i | 1 <= i < |t| ensures Counts(t, i) {
              assert Counts(t[1..], i - 1);
            }
          }
        }
      }
    }
  }

  /** A carriage return put before each line feed that is marked. */
  function Mixed(t: Text, marks: seq<bool>): Text
    requires |marks| == |t|
  {
    if t == [] then [] else (if t[0] == LF && marks[0] then [CR, LF] else [t[0]]) + Mixed(t[1..], marks[1..])
  }

  /** Every line feed right after a carriage return is marked. */
  predicate Guarded(t: Text, marks: seq<bool>)
    requires |marks| == |t|
  {
    forall i | 0 < i < |t| && t[i - 1] == CR && t[i] == LF :: marks[i]
  }

  lemma GuardedRest(t: Text, marks: seq<bool>)
    requires |marks| == |t| && t != []
    ensures Guarded(t, marks) <==> Guarded(t[1..], marks[1..]) && (|t| > 1 && t[0] == CR && t[1] == LF ==> marks[1])
  {
    var rest := t[1..];
    if Guarded(rest, marks[1..]) && (|t| > 1 && t[0] == CR && t[1] == LF ==> marks[1]) {
      forall i | 0 < i < |t| && t[i - 1] == CR && t[i] == LF ensures marks[i] {
        if i > 1 {
          assert rest[i - 2] == t[i - 1] && rest[i - 1] == t[i] && marks[1..][i - 1] == marks[i];
        }
      }
    }
    if Guarded(t, marks) {
      forall i | 0 < i < |rest| && rest[i - 1] == CR && rest[i] == LF ensures marks[1..][i] {
        assert t[i] == rest[i - 1] && t[i + 1] == rest[i];
      }
    }
  }

  /** Carriage returns put before any choice of line feeds normalise away exactly when each line feed that had one already is chosen. */
  lemma {:induction false} MixedNormal(t: Text, marks: seq<bool>)
    requires |marks| == |t|
    ensures |Normal(Mixed(t, marks))| <= |t| && (Normal(Mixed(t, marks)) == t <==> Guarded(t, marks))
  {
    if t != [] {
      hide Normal, Guarded;
      MixedNormal(t[1..], marks[1..]);
      GuardedRest(t, marks);
      MixedOn(t, marks);
      Cons(t[0], Normal(Mixed(t[1..], marks[1..])), t[1..]);
      assert t == [t[0]] + t[1..];
    }
  }

  /** The first byte stays, but when it is a carriage return before a line feed not marked. */
  lemma MixedOn(t: Text, marks: seq<bool>)
    requires |marks| == |t| && t != []
    ensures var more := Normal(Mixed(t[1..], marks[1..]));
            Normal(Mixed(t, marks)) == if |t| > 1 && t[0] == CR && t[1] == LF && !marks[1] then more else [t[0]] + more
  {
    hide Normal;
    var more := Mixed(t[1..], marks[1..]);
    MixedFirst(t[1..], marks[1..]);
    if t[0] == LF && marks[0] {
      assert Mixed(t, marks) == [CR] + ([LF] + more);
      NormalOfPair(CR, [LF] + more);
      NormalOfPair(LF, more);
    } else {
      NormalOfPair(t[0], more);
    }
  }

  lemma Cons(c: Byte, a: Text, b: Text)
    ensures [c] + a == [c] + b <==> a == b
  {
    assert ([c] + a)[1..] == a && ([c] + b)[1..] == b;
  }

  lemma MixedFirst(t: Text, marks: seq<bool>)
    requires |marks| == |t|
    ensures Mixed(t, marks) == [] <==> t == []
    ensures t != [] ==> Mixed(t, marks)[0] == if t[0] == LF && marks[0] then CR else t[0]
  {}

  lemma LfIsGuarded(t: Text, marks: seq<bool>)
    requires |marks| == |t| && IsLf(t)
    ensures Guarded(t, marks)
  {
    forall i | 0 < i < |t| ensures !(t[i - 1] == CR && t[i] == LF) {
      assert Counts(t, i - 1);
    }
  }

  /** The line feeds a text has a carriage return right before. */
  function MarksOf(t: Text): seq<bool> {
    if t == [] then [] else if Counts(t, 0) then [false] + MarksOf(t[1..]) else [true] + MarksOf(t[2..])
  }

  /** Every text is its normalised text with carriage returns put in. */
  lemma {:induction false} MixedOf(t: Text)
    ensures |MarksOf(t)| == |Normal(t)| && Mixed(Normal(t), MarksOf(t)) == t
    decreases |t|
  {
    if t != [] {
      var marks := MarksOf(t);
      if Counts(t, 0) {
        MixedOf(t[1..]);
        assert Normal(t)[1..] == Normal(t[1..]) && marks[1..] == MarksOf(t[1..]) && t == [t[0]] + t[1..];
      } else {
        MixedOf(t[2..]);
        assert t[1..][1..] == t[2..] && Normal(t) == Normal(t[1..]) == [LF] + Normal(t[2..]);
        assert Normal(t)[1..] == Normal(t[2..]) && marks[1..] == MarksOf(t[2..]) && t == [CR, LF] + t[2..];
      }
    }
  }

  /** No two carriage returns right before a line feed. */
  predicate NoDouble(t: Text) {
    forall i | 0 <= i < |t| - 2 :: !(t[i] == CR && t[i + 1] == CR && t[i + 2] == LF)
  }

  lemma NoDoubleRest(t: Text)
    requires t != []
    ensures NoDouble(t) <==> NoDouble(t[1..]) && !(|t| > 2 && t[0] == CR && t[1] == CR && t[2] == LF)
  {
    var rest := t[1..];
    assert forall i | 0 <= i < |rest| :: rest[i] == t[i + 1];
    if NoDouble(rest) {
      forall i | 1 <= i < |t| - 2 ensures !(t[i] == CR && t[i + 1] == CR && t[i + 2] == LF) {
        assert !(rest[i - 1] == CR && rest[i - 1 + 1] == CR && rest[i - 1 + 2] == LF);
      }
    }
  }

  lemma IsLfPair(c: Byte, rest: Text)
    ensures IsLf([c] + rest) <==> IsLf(rest) && !(c == CR && rest != [] && rest[0] == LF)
  {
    var t := [c] + rest;
    assert forall i | 0 <= i < |rest| :: Counts(rest, i) == Counts(t, i + 1);
    if IsLf(rest) && !(c == CR && rest != [] && rest[0] == LF) {
      forall i | 0 <= i < |t| ensures Counts(t, i) {
        assert i > 0 ==> Counts(rest, i - 1);
      }
    }
    if IsLf(t) {
      assert Counts(t, 0);
      forall i | 0 <= i < |rest| ensures Counts(rest, i) {
        assert Counts(t, i + 1);
      }
    }
  }

  /** A text normalises to line feeds alone exactly when it has no two carriage returns right before one. */
  lemma {:induction false} NormalIsLf(t: Text)
    ensures IsLf(Normal(t)) <==> NoDouble(t)
  {
    if t != [] {
      var rest := t[1..];
      NormalIsLf(rest);
      NoDoubleRest(t);
      IsLfPair(t[0], Normal(rest));
      FirstNormal(rest);
      hide IsLf, NoDouble;
      if Counts(t, 0) {
        assert Normal(t) == [t[0]] + Normal(rest);
        assert |rest| > 0 ==> rest[0] == t[1];
        assert |rest| > 1 ==> rest[1] == t[2];
      } else {
        assert [] + Normal(rest) == Normal(rest);
      }
    }
  }

  lemma FirstNormal(t: Text)
    ensures Normal(t) != [] && Normal(t)[0] == LF <==> t != [] && (t[0] == LF || (|t| > 1 && t[0] == CR && t[1] == LF))
  {
    if t != [] && !Counts(t, 0) {
      assert t[1..][0] == t[1] == LF;
    }
  }

  // ---- Framing ----

  /** The `count` lowest bytes of `n`, lowest first. */
  function LittleEndian(n: nat, count: nat): (bytes: Text)
    ensures |bytes| == count
  {
    if count == 0 then [] else [n % 256] + LittleEndian(n / 256, count - 1)
  }

  lemma {:induction false} LittleEndianTells(a: nat, b: nat, count: nat)
    requires a < Pow2(8 * count) && b < Pow2(8 * count) && LittleEndian(a, count) == LittleEndian(b, count)
    ensures a == b
  {
    if count > 0 {
      var x, y := LittleEndian(a / 256, count - 1), LittleEndian(b / 256, count - 1);
      assert ([a % 256] + x)[0] == ([b % 256] + y)[0];
      assert x == ([a % 256] + x)[1..] && y == ([b % 256] + y)[1..];
      Pow2Sum(8, 8 * (count - 1));
      assert Pow2(4) == 16 && Pow2(8) == 256;
      LittleEndianTells(a / 256, b / 256, count - 1);
    }
  }

  /** Bytes framed by their length in eight bytes. */
  function Framed(t: Text): Text {
    LittleEndian(|t|, 8) + t
  }

  /** A text as hashed. */
  function Frame(t: Text): Text {
    Framed(Normal(t))
  }

  /** What the fingerprint hashes. */
  function Stream(files: seq<File>): Text {
    if files == [] then []
    else
      (if IsSimulationFile(files[0].path) then Frame(files[0].path) + Frame(files[0].contents) else []) + Stream(files[1..])
  }

  /** What the fingerprint is of: the simulation's paths and texts in order, line endings aside. */
  function Content(files: seq<File>): seq<(Text, Text)> {
    if files == [] then []
    else
      (if IsSimulationFile(files[0].path) then [(Normal(files[0].path), Normal(files[0].contents))] else [])
      + Content(files[1..])
  }

  /** Pairs framed one after the other. */
  function FramedAll(content: seq<(Text, Text)>): Text {
    if content == [] then [] else Framed(content[0].0) + Framed(content[0].1) + FramedAll(content[1..])
  }

  /** Short enough for a 64-bit length, as every text in memory is. */
  predicate Fits(content: seq<(Text, Text)>) {
    forall k | 0 <= k < |content| :: |content[k].0| < TWO_64 && |content[k].1| < TWO_64
  }

  /** A frame tells where it ends and what it holds. */
  lemma FrameTells(a: Text, b: Text, rest: Text, rest': Text)
    requires |a| < TWO_64 && |b| < TWO_64 && Framed(a) + rest == Framed(b) + rest'
    ensures a == b && rest == rest'
  {
    WordBits();
    var s, s' := Framed(a) + rest, Framed(b) + rest';
    assert LittleEndian(|a|, 8) == s[..8] && LittleEndian(|b|, 8) == s'[..8];
    LittleEndianTells(|a|, |b|, 8);
    var n := 8 + |a|;
    assert a == s[8..n] && b == s'[8..n];
    assert rest == s[n..] && rest' == s'[n..];
  }

  lemma FramedIsNotEmpty(content: seq<(Text, Text)>)
    ensures FramedAll(content) == [] <==> content == []
  {}

  lemma {:induction false} FramesTell(a: seq<(Text, Text)>, b: seq<(Text, Text)>)
    requires Fits(a) && Fits(b) && FramedAll(a) == FramedAll(b)
    ensures a == b
  {
    hide Framed;
    FramedIsNotEmpty(a);
    FramedIsNotEmpty(b);
    if a != [] && b != [] {
      var a0, b0 := Framed(a[0].1) + FramedAll(a[1..]), Framed(b[0].1) + FramedAll(b[1..]);
      assert FramedAll(a) == Framed(a[0].0) + a0 && FramedAll(b) == Framed(b[0].0) + b0;
      FrameTells(a[0].0, b[0].0, a0, b0);
      FrameTells(a[0].1, b[0].1, FramedAll(a[1..]), FramedAll(b[1..]));
      FramesTell(a[1..], b[1..]);
      assert a == [a[0]] + a[1..] && b == [b[0]] + b[1..];
    }
  }

  lemma {:induction false} StreamOfContent(files: seq<File>)
    ensures Stream(files) == FramedAll(Content(files))
  {
    if files != [] {
      StreamOfContent(files[1..]);
      var rest := Content(files[1..]);
      if IsSimulationFile(files[0].path) {
        var pair := (Normal(files[0].path), Normal(files[0].contents));
        assert ([pair] + rest)[1..] == rest;
      } else {
        assert [] + rest == rest && [] + Stream(files[1..]) == Stream(files[1..]);
      }
    }
  }

  /** The hashed stream tells the simulation's content exactly. */
  lemma StreamTellsContent(a: seq<File>, b: seq<File>)
    requires Fits(Content(a)) && Fits(Content(b))
    ensures Stream(a) == Stream(b) <==> Content(a) == Content(b)
  {
    StreamOfContent(a);
    StreamOfContent(b);
    if Stream(a) == Stream(b) {
      FramesTell(Content(a), Content(b));
    }
  }

  /** One text with line feeds, in each with carriage returns before some choice of them. */
  ghost predicate SameButEndings(s: Text, t: Text) {
    exists lf: Text, marks: seq<bool>, marks': seq<bool> ::
      IsLf(lf) && |marks| == |lf| == |marks'| && s == Mixed(lf, marks) && t == Mixed(lf, marks')
  }

  /** The fingerprint does not tell the texts apart. */
  predicate EndingsAgree(s: Text, t: Text) {
    Normal(s) == Normal(t)
  }

  /** Texts that differ only in line endings agree; those that agree differ only so, but where two carriage returns stand before a line feed. */
  lemma EndingsExactly(s: Text, t: Text)
    ensures SameButEndings(s, t) <==> EndingsAgree(s, t) && NoDouble(s)
  {
    if lf: Text, marks: seq<bool>, marks': seq<bool> :|
      IsLf(lf) && |marks| == |lf| == |marks'| && s == Mixed(lf, marks) && t == Mixed(lf, marks') {
      LfIsGuarded(lf, marks);
      LfIsGuarded(lf, marks');
      MixedNormal(lf, marks);
      MixedNormal(lf, marks');
      NormalIsLf(s);
    }
    if EndingsAgree(s, t) && NoDouble(s) {
      NormalIsLf(s);
      MixedOf(s);
      MixedOf(t);
    }
  }

  /** Putting carriage returns in is not seen exactly in a text with none before its line feeds. */
  lemma CrlfAgrees(t: Text)
    ensures EndingsAgree(t, Crlf(t)) <==> IsLf(t)
  {
    CrlfNormal(t);
    LfNormal(t);
  }

  /** Taking them out is not seen exactly in a text with no two right before a line feed. */
  lemma LfAgrees(t: Text)
    ensures EndingsAgree(t, Normal(t)) <==> NoDouble(t)
  {
    LfNormal(Normal(t));
    NormalIsLf(t);
  }

  /** A text that tells itself from itself with its line endings rewritten, either way. */
  lemma DoubleTells()
    ensures Normal([CR, CR, LF]) == [CR, LF] && !EndingsAgree([CR, CR, LF], Normal([CR, CR, LF]))
    ensures !EndingsAgree([CR, LF], Crlf([CR, LF]))
  {
    NormalOfPair(CR, [CR, LF]);
    NormalOfPair(CR, [LF]);
    assert [CR] + [CR, LF] == [CR, CR, LF] && [CR] + [LF] == [CR, LF] && Normal([LF]) == [LF];
    CrlfNormal([CR, LF]);
  }

  /** The same paths, and texts that differ only in line endings. */
  ghost predicate MapsButEndings(a: seq<File>, b: seq<File>) {
    |a| == |b| && forall k | 0 <= k < |a| :: a[k].path == b[k].path && SameButEndings(a[k].contents, b[k].contents)
  }

  /** Maps that differ only in line endings, in any mix, have one fingerprint. */
  lemma {:induction false} EndingsAside(a: seq<File>, b: seq<File>)
    requires MapsButEndings(a, b)
    ensures Content(a) == Content(b) && Hash(Stream(a)) == Hash(Stream(b))
  {
    hide SameButEndings, Normal;
    if a != [] {
      assert forall k | 0 <= k < |a| - 1 :: a[1..][k] == a[k + 1] && b[1..][k] == b[k + 1];
      EndingsAside(a[1..], b[1..]);
      EndingsExactly(a[0].contents, b[0].contents);
    }
    StreamOfContent(a);
    StreamOfContent(b);
  }

  function Rewritten(files: seq<File>, rewrite: Text -> Text): seq<File> {
    seq(|files|, k requires 0 <= k < |files| => File(files[k].path, rewrite(files[k].contents)))
  }

  lemma {:induction false} RewrittenContent(files: seq<File>, rewrite: Text -> Text)
    ensures Content(Rewritten(files, rewrite)) == Content(files)
            <==> forall k | 0 <= k < |files| && IsSimulationFile(files[k].path) :: EndingsAgree(files[k].contents, rewrite(files[k].contents))
  {
    if files != [] {
      hide IsSimulationFile, Normal, EndingsAgree;
      var rest := files[1..];
      RewrittenContent(rest, rewrite);
      RewrittenFirst(files, rewrite);
      assert forall k | 0 <= k < |rest| :: rest[k] == files[k + 1];
      assert forall k | 1 <= k < |files| :: files[k] == rest[k - 1];
    }
  }

  lemma RewrittenFirst(files: seq<File>, rewrite: Text -> Text)
    requires files != []
    ensures var rest := files[1..];
            Content(Rewritten(files, rewrite)) == Content(files)
            <==> Content(Rewritten(rest, rewrite)) == Content(rest)
                 && (IsSimulationFile(files[0].path) ==> EndingsAgree(files[0].contents, rewrite(files[0].contents)))
  {
    hide IsSimulationFile, Normal;
    var rest, now := files[1..], Rewritten(files, rewrite);
    assert now[1..] == Rewritten(rest, rewrite) && now[0] == File(files[0].path, rewrite(files[0].contents));
    var a, b := Content(files), Content(now);
    if IsSimulationFile(files[0].path) {
      assert a[1..] == Content(rest) && b[1..] == Content(now[1..]);
    } else {
      assert a == Content(rest) && b == Content(now[1..]);
    }
  }

  /**
    Content checked out with carriage returns, or without, hashes the same stream exactly
    when no simulation text had one before a line feed, or two.
  */
  lemma CheckoutsAgree(files: seq<File>)
    requires Fits(Content(files)) && Fits(Content(Rewritten(files, Crlf))) && Fits(Content(Rewritten(files, Normal)))
    ensures Stream(Rewritten(files, Crlf)) == Stream(files)
            <==> forall k | 0 <= k < |files| && IsSimulationFile(files[k].path) :: IsLf(files[k].contents)
    ensures Stream(Rewritten(files, Normal)) == Stream(files)
            <==> forall k | 0 <= k < |files| && IsSimulationFile(files[k].path) :: NoDouble(files[k].contents)
  {
    hide IsSimulationFile, Fits, Stream, Content, IsLf, NoDouble, EndingsAgree;
    StreamTellsContent(Rewritten(files, Crlf), files);
    StreamTellsContent(Rewritten(files, Normal), files);
    RewrittenContent(files, Crlf);
    RewrittenContent(files, Normal);
    forall k | 0 <= k < |files|
      ensures EndingsAgree(files[k].contents, Crlf(files[k].contents)) <==> IsLf(files[k].contents)
      ensures EndingsAgree(files[k].contents, Normal(files[k].contents)) <==> NoDouble(files[k].contents)
    {
      CrlfAgrees(files[k].contents);
      LfAgrees(files[k].contents);
    }
  }

  /** The files of the simulation alone. */
  function Simulation(files: seq<File>): seq<File> {
    if files == [] then []
    else (if IsSimulationFile(files[0].path) then [files[0]] else []) + Simulation(files[1..])
  }

  /** Files outside the simulation's folders change nothing. */
  lemma {:induction false} OthersAside(files: seq<File>)
    ensures Content(Simulation(files)) == Content(files) && Hash(Stream(Simulation(files))) == Hash(Stream(files))
  {
    if files != [] {
      OthersAside(files[1..]);
      var rest := Simulation(files[1..]);
      if IsSimulationFile(files[0].path) {
        assert ([files[0]] + rest)[1..] == rest;
      } else {
        assert [] + rest == rest;
        assert [] + Content(files[1..]) == Content(files[1..]);
      }
    }
    StreamOfContent(files);
    StreamOfContent(Simulation(files));
  }

  /** Maps whose streams are of one length and differ in one byte never share a fingerprint. */
  lemma OneByteApart(a: seq<File>, b: seq<File>, k: nat)
    requires |Stream(a)| == |Stream(b)| && k < |Stream(a)| && Stream(a)[k] != Stream(b)[k]
    requires forall j | 0 <= j < |Stream(a)| && j != k :: Stream(a)[j] == Stream(b)[j]
    ensures Hash(Stream(a)) != Hash(Stream(b)) && Content(a) != Content(b)
  {
    OneByteShows(Stream(a), Stream(b), k);
    StreamOfContent(a);
    StreamOfContent(b);
  }

  // ---- The two loops ----

  /** How many bytes of a text count. */
  method CountBytes(value: Text) returns (length: nat)
    ensures length == |Normal(value)|
  {
    length := 0;
    var i := 0;
    assert value[0..] == value;
    while i < |value|
      invariant 0 <= i <= |value| && length + |Normal(value[i..])| == |Normal(value)|
    {
      NormalStep(value, i);
      if Counts(value, i) {
        length := length + 1;
      }
      i := i + 1;
    }
  }

  /** The length hashed on, eight bits at a time from the lowest. */
  method HashLength(hash: Word, length: nat, ghost fed: Text) returns (hash': Word)
    requires hash == Hash(fed)
    ensures hash' == Hash(fed + LittleEndian(length, 8))
  {
    hide Mix, LittleEndian;
    hash' := hash;
    ghost var now: Text := fed;
    var rest: nat, shift: nat := length, 0;
    while shift < 64
      invariant shift <= 64 && shift % 8 == 0 && hash' == Hash(now)
      invariant fed + LittleEndian(length, 8) == now + LittleEndian(rest, (64 - shift) / 8)
    {
      HashSnoc(now, rest % 256);
      LengthStep(now, rest, (64 - shift) / 8);
      hash', now := Mix(hash', rest % 256), now + [rest % 256];
      rest, shift := rest / 256, shift + 8;
    }
    NoBytes(rest);
    assert now + LittleEndian(rest, 0) == now;
  }

  lemma NoBytes(n: nat)
    ensures LittleEndian(n, 0) == []
  {}

  lemma LengthStep(now: Text, rest: nat, count: nat)
    requires count > 0
    ensures now + LittleEndian(rest, count) == now + [rest % 256] + LittleEndian(rest / 256, count - 1)
  {}

  lemma ByteStep(now: Text, value: Text, i: nat)
    requires i < |value|
    ensures Counts(value, i) ==> now + Normal(value[i..]) == now + [value[i]] + Normal(value[i + 1..])
    ensures !Counts(value, i) ==> now + Normal(value[i..]) == now + Normal(value[i + 1..])
    ensures Hash(now + [value[i]]) == Mix(Hash(now), value[i])
  {
    hide Normal, Mix, Hash;
    NormalStep(value, i);
    HashSnoc(now, value[i]);
    assert now + ([value[i]] + Normal(value[i + 1..])) == now + [value[i]] + Normal(value[i + 1..]);
    assert [] + Normal(value[i + 1..]) == Normal(value[i + 1..]);
  }

  lemma BytesDone(now: Text, value: Text)
    ensures now + Normal(value[|value|..]) == now && value[0..] == value
  {}

  /** The bytes that count hashed on. */
  method HashBytes(hash: Word, value: Text, ghost fed: Text) returns (hash': Word)
    requires hash == Hash(fed)
    ensures hash' == Hash(fed + Normal(value))
  {
    hide Mix, Hash, Normal;
    hash' := hash;
    ghost var now: Text := fed;
    var i := 0;
    BytesDone(now, value);
    while i < |value|
      invariant 0 <= i <= |value| && hash' == Hash(now) && now + Normal(value[i..]) == fed + Normal(value)
    {
      ByteStep(now, value, i);
      if Counts(value, i) {
        hash', now := Mix(hash', value[i]), now + [value[i]];
      }
      i := i + 1;
    }
    BytesDone(now, value);
  }

  /** One text hashed on, framed by the length the first loop counts. */
  method HashText(hash: Word, value: Text, ghost fed: Text) returns (hash': Word)
    requires hash == Hash(fed)
    ensures hash' == Hash(fed + Frame(value))
  {
    hide Hash, LittleEndian, Normal;
    var length := CountBytes(value);
    hash' := HashLength(hash, length, fed);
    hash' := HashBytes(hash', value, fed + LittleEndian(length, 8));
    assert fed + LittleEndian(length, 8) + Normal(value) == fed + Frame(value);
  }

  lemma NormalStep(t: Text, i: nat)
    requires i < |t|
    ensures Normal(t[i..]) == (if Counts(t, i) then [t[i]] else []) + Normal(t[i + 1..])
  {
    assert t[i..][1..] == t[i + 1..];
    assert Counts(t[i..], 0) == Counts(t, i);
  }

  method SimulationContentHash(files: seq<File>) returns (hash: Word)
    ensures hash == Hash(Stream(files))
  {
    hide Frame, IsSimulationFile, Mix, Hash;
    assert OFFSET_BASIS == Hash([]) by { HashNothing(); }
    hash := OFFSET_BASIS;
    ghost var fed: Text := [];
    var k := 0;
    assert files[0..] == files;
    while k < |files|
      invariant 0 <= k <= |files| && hash == Hash(fed) && fed + Stream(files[k..]) == Stream(files)
    {
      var file := files[k];
      StreamStep(fed, files, k);
      if IsSimulationFile(file.path) {
        hash := HashText(hash, file.path, fed);
        hash := HashText(hash, file.contents, fed + Frame(file.path));
        fed := fed + Frame(file.path) + Frame(file.contents);
      }
      k := k + 1;
    }
    assert fed + Stream([]) == fed;
  }

  lemma StreamStep(fed: Text, files: seq<File>, k: nat)
    requires k < |files|
    ensures fed + Stream(files[k..])
            == (if IsSimulationFile(files[k].path) then fed + Frame(files[k].path) + Frame(files[k].contents) else fed)
               + Stream(files[k + 1..])
  {
    hide Frame, IsSimulationFile;
    assert files[k..][1..] == files[k + 1..];
  }
}
