/** A path written as text, its segments between slashes. */
module JsonPath {
  import opened Options
  import opened JsonScan

  /** The first slash from `i` on, or the text's end. */
  function NextSlash(t: string, i: nat): (k: nat)
    requires i <= |t|
    ensures i <= k <= |t| && (k < |t| ==> t[k] == '/') && forall m | i <= m < k :: t[m] != '/'
    decreases |t| - i
  {
    if i == |t| || t[i] == '/' then i else NextSlash(t, i + 1)
  }

  function Split(t: string): Option<Path>
    decreases |t|
  {
    var k := NextSlash(t, 0);
    if k == 0 then None else if k == |t| then Some([t]) else After([t[..k]], Split(t[k + 1..]))
  }

  /** The segments read so far, and what the rest of the text is read as. */
  function After(path: Path, rest: Option<Path>): Option<Path> {
    match rest
    case None => None
    case Some(rest) => Some(path + rest)
  }

  predicate IsSegment(s: string) {
    s != "" && '/' !in s
  }

  /** At least one segment, none empty and none with a slash in it. */
  predicate IsPath(path: Path) {
    path != [] && forall k | 0 <= k < |path| :: IsSegment(path[k])
  }

  function Join(path: Path): string
    requires path != []
  {
    if |path| == 1 then path[0] else path[0] + "/" + Join(path[1..])
  }

  lemma {:induction false} SplitReads(t: string)
    ensures Split(t).Some? ==> IsPath(Split(t).value) && Join(Split(t).value) == t
    decreases |t|
  {
    var k := NextSlash(t, 0);
    if 0 < k < |t| && Split(t).Some? {
      SplitReads(t[k + 1..]);
      var rest := Split(t[k + 1..]).value;
      assert Split(t).value == [t[..k]] + rest && ([t[..k]] + rest)[1..] == rest;
      assert t == t[..k] + "/" + t[k + 1..];
    }
  }

  lemma {:induction false} SplitWritten(path: Path)
    requires IsPath(path)
    ensures Split(Join(path)) == Some(path)
    decreases |path|
  {
    var t, k := Join(path), |path[0]|;
    assert t[..k] == path[0];
    assert IsSegment(path[0]);
    assert NextSlash(t, 0) == k by {
      forall m | 0 <= m < k ensures t[m] != '/' {
        assert t[m] == path[0][m];
      }
      assert |path| > 1 ==> t[k] == '/';
    }
    if |path| == 1 {
      assert path == [path[0]];
    } else {
      assert t[k + 1..] == Join(path[1..]);
      assert IsPath(path[1..]) by {
        assert forall m | 0 <= m < |path| - 1 :: path[1..][m] == path[m + 1];
      }
      SplitWritten(path[1..]);
      assert [path[0]] + path[1..] == path;
    }
  }

  /** A text is read as a path exactly when that path, joined, is the text. */
  lemma SplitInvertsJoin(t: string, path: Path)
    ensures Split(t) == Some(path) <==> IsPath(path) && Join(path) == t
  {
    SplitReads(t);
    if IsPath(path) {
      SplitWritten(path);
    }
  }

  method ParseJsonPath(text: string) returns (parsed: Option<Path>)
    ensures parsed == Split(text)
  {
    hide Split, After;
    var path: Path, begin := [], 0;
    assert text[0..] == text;
    AfterNothing(Split(text));
    while begin <= |text|
      invariant begin <= |text| + 1
      invariant if begin <= |text| then Split(text) == After(path, Split(text[begin..])) else Split(text) == Some(path)
      decreases |text| + 1 - begin
    {
      var slash := begin;
      while slash < |text| && text[slash] != '/'
        invariant begin <= slash <= |text| && forall m | begin <= m < slash :: text[m] != '/'
      {
        slash := slash + 1;
      }
      SplitStep(text, begin, slash, path);
      if slash == begin {
        return None;
      }
      path := path + [text[begin..slash]];
      begin := slash + 1;
    }
    return Some(path);
  }

  lemma AfterNothing(rest: Option<Path>)
    ensures After([], rest) == rest
  {
    assert rest.Some? ==> [] + rest.value == rest.value;
  }

  /** One segment on. */
  lemma SplitStep(t: string, begin: nat, slash: nat, path: Path)
    requires begin <= slash <= |t| && (slash < |t| ==> t[slash] == '/') && forall m | begin <= m < slash :: t[m] != '/'
    ensures slash == begin ==> After(path, Split(t[begin..])) == None
    ensures begin < slash ==> After(path, Split(t[begin..]))
                              == if slash == |t| then Some(path + [t[begin..slash]])
                                 else After(path + [t[begin..slash]], Split(t[slash + 1..]))
  {
    var rest := t[begin..];
    NextSlashOfRest(t, begin, slash);
    if begin < slash {
      assert rest[..slash - begin] == t[begin..slash];
      assert slash == |t| ==> rest == t[begin..slash];
      if slash < |t| {
        assert rest[slash - begin + 1..] == t[slash + 1..];
        var further := Split(t[slash + 1..]);
        assert further.Some? ==> path + ([t[begin..slash]] + further.value) == path + [t[begin..slash]] + further.value;
      }
    }
  }

  lemma NextSlashOfRest(t: string, begin: nat, slash: nat)
    requires begin <= slash <= |t| && (slash < |t| ==> t[slash] == '/') && forall m | begin <= m < slash :: t[m] != '/'
    ensures NextSlash(t[begin..], 0) == slash - begin
  {}
}
