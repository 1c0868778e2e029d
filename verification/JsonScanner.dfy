/**
  The scanner as it runs: one text, one cursor moved forward in loops and calls. Every
  method is proved to move the cursor exactly as the function of its name in `JsonScan`.
*/
module JsonScanner {
  import opened Options
  import opened JsonScan
  import opened JsonEdit

  class Scanner {
    const text: string
    var at: nat

    constructor (text: string)
      ensures this.text == text && at == 0
    {
      this.text := text;
      at := 0;
    }

    function Here(): char
      reads this
    {
      Peek(text, at)
    }

    method SkipSpaces()
      modifies this
      ensures at == SkipSpace(text, old(at))
    {
      while at < |text| && IsSpace(text[at])
        invariant SkipSpace(text, at) == SkipSpace(text, old(at))
      {
        at := at + 1;
      }
    }

    method SkipString() returns (ok: bool)
      modifies this
      ensures Scan(ok, at) == SkipBody(text, old(at) + 1)
    {
      at := at + 1;
      while at < |text|
        invariant SkipBody(text, at) == SkipBody(text, old(at) + 1)
      {
        var c := text[at];
        at := at + 1;
        if c == '\\' {
          at := at + 1;
        } else if c == '"' {
          return true;
        }
      }
      return false;
    }

    method ReadKey() returns (key: Option<string>)
      modifies this
      ensures Scan(key.Some?, at) == SkipKey(text, old(at))
      ensures key.Some? ==> key.value == KeyText(text, old(at))
    {
      SkipSpaces();
      if Here() != '"' {
        return None;
      }
      var begin := at + 1;
      var ok := SkipString();
      if !ok {
        return None;
      }
      return Some(text[begin..at - 1]);
    }

    method Take(c: char) returns (ok: bool)
      modifies this
      ensures Scan(ok, at) == Expect(text, old(at), c)
    {
      SkipSpaces();
      if Here() != c {
        return false;
      }
      at := at + 1;
      return true;
    }

    /** On to the next item, or past the container's bracket. */
    method NextItem(close: char) returns (more: bool, closed: bool)
      requires close != ','
      modifies this
      ensures var j := SkipSpace(text, old(at));
              && (more <==> Peek(text, j) == ',') && (closed <==> Peek(text, j) == close)
              && at == if more || closed then j + 1 else j
    {
      SkipSpaces();
      if Here() == ',' {
        at := at + 1;
        return true, false;
      }
      more, closed := false, Here() == close;
      if closed {
        at := at + 1;
      }
    }

    method SkipOne() returns (ok: bool)
      modifies this
      ensures Scan(ok, at) == SkipValue(text, old(at))
      decreases |text| - at, 1
    {
      SkipSpaces();
      var c := Here();
      if c == '{' || c == '[' {
        ok := SkipAll(if c == '{' then '}' else ']', c == '{');
        return;
      }
      if c == '"' {
        ok := SkipString();
        return;
      }
      var begin := at;
      while at < |text| && IsScalar(text[at])
        invariant begin <= at && SkipScalar(text, at) == SkipScalar(text, begin)
      {
        at := at + 1;
      }
      return at > begin;
    }

    /** From a container's opening bracket to past its closing one. */
    method SkipAll(close: char, isObject: bool) returns (ok: bool)
      requires at < |text| && close != '\0' && close != ','
      modifies this
      ensures Scan(ok, at) == SkipContainer(text, old(at) + 1, close, isObject)
      decreases |text| - at, 0
    {
      ghost var start := at;
      at := at + 1;
      SkipSpaces();
      if Here() == close {
        at := at + 1;
        return true;
      }
      ghost var whole := SkipItems(text, at, close, isObject);
      var more, closed := true, false;
      while more
        invariant at > start && (more ==> at <= |text|)
        invariant if more then SkipItems(text, at, close, isObject) == whole else Scan(closed, at) == whole
        decreases more, |text| - at
      {
        if isObject {
          var key := ReadKey();
          if key.None? {
            return false;
          }
          var colon := Take(':');
          if !colon {
            return false;
          }
        }
        ok := SkipOne();
        if !ok {
          return false;
        }
        more, closed := NextItem(close);
      }
      return closed;
    }

    method AtEnd() returns (end: bool)
      modifies this
      ensures at == SkipSpace(text, old(at)) && (end <==> at == |text|)
    {
      SkipSpaces();
      return at == |text|;
    }

    /** The cursor search for what is left of `path` past its first `depth` segments. */
    method FindFrom(path: Path, depth: nat) returns (found: Option<Span>)
      requires depth <= |path|
      modifies this
      ensures found == Find(text, old(at), path[depth..])
      decreases |path| - depth, 1
    {
      SkipSpaces();
      if depth == |path| {
        var begin := at;
        var ok := SkipOne();
        return if ok then Some(Span(begin, at)) else None;
      }
      if Here() == '{' {
        found := FindInObject(path, depth);
        return;
      }
      if Here() == '[' {
        found := FindInArray(path, depth);
        return;
      }
      return None;
    }

    method FindInObject(path: Path, depth: nat) returns (found: Option<Span>)
      requires depth < |path| && at < |text|
      modifies this
      ensures var k := SkipSpace(text, old(at) + 1);
              found == if Peek(text, k) == '}' then None else FindMember(text, k, path[depth..])
      decreases |path| - depth, 0
    {
      hide SkipValue, KeyText, SkipKey, Find, FindElement;
      at := at + 1;
      SkipSpaces();
      if Here() == '}' {
        return None;
      }
      ghost var whole := FindMember(text, at, path[depth..]);
      var more, closed := true, false;
      while more
        invariant more ==> FindMember(text, at, path[depth..]) == whole
        invariant !more ==> whole == None
        decreases more, |text| - at
      {
        var key := ReadKey();
        if key.None? {
          return None;
        }
        var colon := Take(':');
        if !colon {
          return None;
        }
        if key.value == path[depth] {
          assert path[depth..][1..] == path[depth + 1..];
          found := FindFrom(path, depth + 1);
          return;
        }
        var ok := SkipOne();
        if !ok {
          return None;
        }
        more, closed := NextItem('}');
      }
      return None;
    }

    method FindInArray(path: Path, depth: nat) returns (found: Option<Span>)
      requires depth < |path| && at < |text|
      modifies this
      ensures var k := SkipSpace(text, old(at) + 1);
              found == if !IsIndex(path[depth]) || Peek(text, k) == ']' then None
                       else FindElement(text, k, Index(path[depth]), path[depth..])
      decreases |path| - depth, 0
    {
      if !IsIndex(path[depth]) {
        return None;
      }
      var wanted := Index(path[depth]);
      at := at + 1;
      SkipSpaces();
      if Here() == ']' {
        return None;
      }
      ghost var whole := FindElement(text, at, wanted, path[depth..]);
      var index, more, closed := 0, true, false;
      while more
        invariant 0 <= index <= wanted || !more
        invariant more ==> FindElement(text, at, wanted - index, path[depth..]) == whole
        invariant !more ==> whole == None
        decreases more, |text| - at
      {
        if index == wanted {
          assert path[depth..][1..] == path[depth + 1..];
          found := FindFrom(path, depth + 1);
          return;
        }
        var ok := SkipOne();
        if !ok {
          return None;
        }
        index := index + 1;
        more, closed := NextItem(']');
      }
      return None;
    }
  }

  /** Two scanners: one checks the whole text, the other then searches. */
  method JsonValueSpan(text: string, path: Path) returns (found: Option<Span>)
    ensures found == ValueSpan(text, path)
  {
    var whole := new Scanner(text);
    var ok := whole.SkipOne();
    if !ok {
      return None;
    }
    var end := whole.AtEnd();
    if !end {
      return None;
    }
    var scanner := new Scanner(text);
    assert path[0..] == path;
    found := scanner.FindFrom(path, 0);
  }

  method ReplaceJsonValue(text: string, path: Path, value: string) returns (edited: Option<string>)
    ensures edited == Replace(text, path, value)
  {
    var span := JsonValueSpan(text, path);
    if span.None? {
      return None;
    }
    Finds(text, path);
    return Some(text[..span.value.begin] + value + text[span.value.end..]);
  }
}
