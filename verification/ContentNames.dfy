/**
  Which files the fingerprint is of, and how their bytes are laid out for it
  (`src/game/content_hash.cpp`), with the names and numbers written out.
*/
module ContentNames {
  import opened Fnv
  import opened ContentHash

  lemma AsciiIs(s: string)
    requires forall k | 0 <= k < |s| :: s[k] as int < 128
    ensures |Ascii(s)| == |s| && forall k | 0 <= k < |s| :: Ascii(s)[k] == s[k] as int
  {}

  lemma AsciiConcat(a: string, b: string)
    ensures Ascii(a + b) == Ascii(a) + Ascii(b)
  {}

  /** A file of the simulation: JSON, at any depth in one of five folders. */
  lemma NamesTaken(folder: string, name: Text)
    requires folder in ["play/tuning", "play/progression", "play/items", "interface/fonts", "world/courses"]
    ensures IsSimulationFile(Ascii(folder) + Ascii("/") + name + Ascii(".json"))
  {
    var path := Ascii(folder) + Ascii("/") + name + Ascii(".json");
    AsciiConcat(folder, "/");
    assert path[..|folder| + 1] == Ascii(folder + "/");
    assert path[|path| - 5..] == Ascii(".json");
    if folder == "play/tuning" {
      assert FOLDERS[0] == folder;
    } else if folder == "play/progression" {
      assert FOLDERS[1] == folder;
    } else if folder == "play/items" {
      assert FOLDERS[2] == folder;
    } else if folder == "interface/fonts" {
      assert FOLDERS[3] == folder;
    } else {
      assert FOLDERS[4] == folder;
    }
  }

  lemma NamesLeft(path: Text)
    requires |path| < 5 || path[|path| - 5..] != Ascii(".json")
             || !(Ascii("play/tuning/") <= path || Ascii("play/progression/") <= path || Ascii("play/items/") <= path
                  || Ascii("interface/fonts/") <= path || Ascii("world/courses/") <= path)
    ensures !IsSimulationFile(path)
  {
    assert FOLDERS[0] + "/" == "play/tuning/" && FOLDERS[1] + "/" == "play/progression/" && FOLDERS[2] + "/" == "play/items/";
    assert FOLDERS[3] + "/" == "interface/fonts/" && FOLDERS[4] + "/" == "world/courses/";
  }

  function ContentHead(file: File): seq<(Text, Text)> {
    if IsSimulationFile(file.path) then [(Normal(file.path), Normal(file.contents))] else []
  }

  lemma ContentFirst(files: seq<File>)
    requires files != []
    ensures Content(files) == ContentHead(files[0]) + Content(files[1..])
  {}

  lemma NoContent()
    ensures Content([]) == []
  {}

  lemma {:induction false} ContentConcat(a: seq<File>, b: seq<File>)
    ensures Content(a + b) == Content(a) + Content(b)
  {
    hide Content, ContentHead;
    if a == [] {
      NoContent();
      assert a + b == b && [] + Content(b) == Content(b);
    } else {
      ContentConcat(a[1..], b);
      assert (a + b)[1..] == a[1..] + b && (a + b)[0] == a[0];
      ContentFirst(a);
      ContentFirst(a + b);
      assert ContentHead(a[0]) + (Content(a[1..]) + Content(b)) == ContentHead(a[0]) + Content(a[1..]) + Content(b);
    }
  }

  lemma ContentOne(file: File)
    ensures Content([file]) == if IsSimulationFile(file.path) then [(Normal(file.path), Normal(file.contents))] else []
  {
    assert [file][1..] == [];
    assert Content([]) == [];
  }

  lemma Around<T>(s: seq<T>, k: nat)
    requires k < |s|
    ensures s == s[..k] + [s[k]] + s[k + 1..]
  {}

  lemma ContentSplit(files: seq<File>, k: nat)
    requires k < |files|
    ensures Content(files) == Content(files[..k]) + Content([files[k]]) + Content(files[k + 1..])
  {
    hide Content;
    ContentConcat(files[..k], [files[k]]);
    ContentConcat(files[..k] + [files[k]], files[k + 1..]);
    Around(files, k);
  }

  /** A JSON file in one of the five folders whose text changes beyond its line endings changes what is hashed. */
  lemma SimulationTold(files: seq<File>, k: nat, folder: string, name: Text, text: Text)
    requires folder in ["play/tuning", "play/progression", "play/items", "interface/fonts", "world/courses"]
    requires k < |files| && files[k].path == Ascii(folder) + Ascii("/") + name + Ascii(".json")
    requires !EndingsAgree(files[k].contents, text)
    requires Fits(Content(files)) && Fits(Content(files[k := File(files[k].path, text)]))
    ensures Stream(files[k := File(files[k].path, text)]) != Stream(files)
  {
    hide IsSimulationFile, Normal, Content, Stream, Fits;
    var now := files[k := File(files[k].path, text)];
    NamesTaken(folder, name);
    ContentSplit(files, k);
    ContentSplit(now, k);
    ContentOne(files[k]);
    ContentOne(now[k]);
    assert now[..k] == files[..k] && now[k + 1..] == files[k + 1..];
    Middles(Content(files[..k]), Content([files[k]])[0], Content([now[k]])[0], Content(files[k + 1..]));
    StreamTellsContent(files, now);
  }

  lemma Middles(a: seq<(Text, Text)>, x: (Text, Text), y: (Text, Text), b: seq<(Text, Text)>)
    requires x != y
    ensures a + [x] + b != a + [y] + b
  {
    assert (a + [x] + b)[|a|] == x && (a + [y] + b)[|a|] == y;
  }

  /** Any other file can be added or taken out, and nothing else is hashed. */
  lemma OthersUntold(files: seq<File>, k: nat, file: File)
    requires k <= |files|
    requires |file.path| < 5 || file.path[|file.path| - 5..] != Ascii(".json")
             || !(Ascii("play/tuning/") <= file.path || Ascii("play/progression/") <= file.path || Ascii("play/items/") <= file.path
                  || Ascii("interface/fonts/") <= file.path || Ascii("world/courses/") <= file.path)
    ensures Stream(files[..k] + [file] + files[k..]) == Stream(files)
  {
    hide IsSimulationFile, Normal, Content, Stream;
    var more := files[..k] + [file] + files[k..];
    NamesLeft(file.path);
    ContentSplit(more, k);
    ContentOne(file);
    assert more[..k] == files[..k] && more[k] == file && more[k + 1..] == files[k..];
    ContentConcat(files[..k], files[k..]);
    assert files[..k] + files[k..] == files && Content(files[..k]) + [] == Content(files[..k]);
    StreamOfContent(more);
    StreamOfContent(files);
  }

  // ---- The layout ----

  lemma Divided(n: nat, a: nat, b: nat)
    requires a > 0 && b > 0
    ensures n / (a * b) == n / a / b
  {
    var q, r := n / a, n % a;
    var q', r' := q / b, q % b;
    assert n == a * (b * q' + r') + r == (a * b) * q' + (a * r' + r);
    Remains(a, b, r', r);
    Quotient(n, a * b, q', a * r' + r);
  }

  lemma Remains(a: nat, b: nat, r': nat, r: nat)
    requires r' < b && r < a
    ensures a * r' + r < a * b
  {
    assert a * r' <= a * (b - 1);
  }

  lemma Quotient(n: nat, d: nat, q: nat, r: nat)
    requires d > 0 && r < d && n == d * q + r
    ensures n / d == q
  {
    var e := n / d - q;
    assert d * e == r - n % d;
  }

  /** The lowest byte of a length comes first, the others in turn. */
  lemma {:induction false} LengthBytes(n: nat, count: nat, k: nat)
    requires k < count
    ensures LittleEndian(n, count)[k] == n / Pow2(8 * k) % 256
  {
    if k > 0 {
      LengthBytes(n / 256, count - 1, k - 1);
      Pow2Sum(8, 8 * (k - 1));
      assert Pow2(4) == 16 && Pow2(8) == 256;
      Divided(n, 256, Pow2(8 * (k - 1)));
    }
  }

  /**
    One simulation file, line feeds alone: eight bytes of its path's length, lowest first,
    its path, eight bytes of its text's length, its text.
  */
  lemma OneFileLaidOut(folder: string, name: Text, text: Text)
    requires folder in ["play/tuning", "play/progression", "play/items", "interface/fonts", "world/courses"]
    requires IsLf(Ascii(folder) + Ascii("/") + name + Ascii(".json")) && IsLf(text)
    ensures var path := Ascii(folder) + Ascii("/") + name + Ascii(".json");
            var stream := Stream([File(path, text)]);
            && |stream| == 16 + |path| + |text|
            && (forall k: nat | k < 8 :: stream[k] == |path| / Pow2(8 * k) % 256 && stream[8 + |path| + k] == |text| / Pow2(8 * k) % 256)
            && stream[8..8 + |path|] == path && stream[16 + |path|..] == text
  {
    hide IsSimulationFile, IsLf, Normal, LittleEndian;
    var path := Ascii(folder) + Ascii("/") + name + Ascii(".json");
    NamesTaken(folder, name);
    LfNormal(path);
    LfNormal(text);
    var file := File(path, text);
    assert [file][1..] == [] && Stream([]) == [];
    assert Frame(path) == LittleEndian(|path|, 8) + path && Frame(text) == LittleEndian(|text|, 8) + text;
    var stream := Stream([file]);
    assert stream == Frame(path) + Frame(text) + [];
    assert stream == LittleEndian(|path|, 8) + path + LittleEndian(|text|, 8) + text;
    forall k: nat | k < 8 ensures stream[k] == |path| / Pow2(8 * k) % 256 && stream[8 + |path| + k] == |text| / Pow2(8 * k) % 256 {
      LengthBytes(|path|, 8, k);
      LengthBytes(|text|, 8, k);
      assert stream[k] == LittleEndian(|path|, 8)[k] && stream[8 + |path| + k] == LittleEndian(|text|, 8)[k];
    }
  }

  // ---- A published value ----

  lemma XorZero(x: nat)
    ensures Xor(x, 0) == x
  {
    if x > 0 {
      XorZero(x / 2);
    }
  }

  /** The bits of the higher half stay when the other number has none there. */
  lemma XorLow(high: nat, low: nat, byte: nat, k: nat)
    requires byte < Pow2(k) && low < Pow2(k)
    ensures Xor(high * Pow2(k) + low, byte) == high * Pow2(k) + Xor(low, byte)
  {
    hide Xor;
    if k == 0 {
      XorZero(high);
      XorZero(0);
    } else {
      var p := Pow2(k - 1);
      var x := high * Pow2(k) + low;
      Doubled(high, p);
      assert x == 2 * (high * p) + low && x / 2 == high * p + low / 2 && x % 2 == low % 2;
      XorLow(high, low / 2, byte / 2, k - 1);
      XorHalves(x, byte);
      XorHalves(low, byte);
      Halves(Xor(x, byte), high * p, Xor(low, byte));
    }
  }

  lemma Doubled(high: nat, p: nat)
    ensures high * (2 * p) == 2 * (high * p)
  {}

  lemma Halves(a: nat, h: nat, b: nat)
    requires a / 2 == h + b / 2 && a % 2 == b % 2
    ensures a == 2 * h + b
  {}

  /** The hash of nothing and of the one byte "a", as published for 64-bit FNV-1a. */
  lemma KnownHashes()
    ensures Hash([]) == 0xcbf29ce484222325 && Hash([97]) == 0xaf63dc4c8601ec8c
  {
    hide Xor, Hash;
    HashNothing();
    HashSnoc([], 97);
    assert [] + [97] == [97];
    assert Pow2(4) == 16 && Pow2(8) == 256;
    XorLow(0xcbf29ce4842223, 0x25, 97, 8);
    LowBits();
    RemainderIs(0xcbf29ce484222344 * PRIME, 875948729822, 0xaf63dc4c8601ec8c);
  }

  lemma LowBits()
    ensures Xor(0x25, 97) == 0x44
  {
    assert Xor(0, 0) == 0;
    assert Xor(0, 1) == 1;
    assert Xor(1, 3) == 2;
    assert Xor(2, 6) == 4;
    assert Xor(4, 12) == 8;
    assert Xor(9, 24) == 17;
    assert Xor(18, 48) == 34;
  }
}
