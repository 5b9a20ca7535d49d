/** Optional values, for JavaScript's `undefined` and for parses that fail. */
module Wrappers {
  datatype Option<+T> = None | Some(value: T)
}

/** JavaScript's `Array.prototype.join` and `String.prototype.split` on one separator character. */
module Strings {

  /** `parts.join(sep)`: the parts with one `sep` between neighbours; `[].join(sep)` is "". */
  function Join(parts: seq<string>, sep: char): (joined: string)
  {
    if |parts| == 0 then ""
    else if |parts| == 1 then parts[0]
    else parts[0] + [sep] + Join(parts[1..], sep)
  }

  /** `s.split(sep)`: the maximal pieces of `s` between occurrences of `sep`; "".split(sep) is [""]. */
  function Split(s: string, sep: char): (parts: seq<string>)
    ensures |parts| == multiset(s)[sep] + 1
    ensures forall i :: 0 <= i < |parts| ==> sep !in parts[i]
  {
    assert s != [] ==> s == [s[0]] + s[1..];
    if s == [] then [""]
    else
      var rest := Split(s[1..], sep);
      if s[0] == sep then [""] + rest
      else [[s[0]] + rest[0]] + rest[1..]
  }

  lemma JoinCons(x: string, parts: seq<string>, sep: char)
    ensures Join([x] + parts, sep) == if parts == [] then x else x + [sep] + Join(parts, sep)
  {
    assert ([x] + parts)[1..] == parts;
  }

  /** Joining what `Split` cut at `sep` gives back the string. */
  lemma {:induction false} JoinSplit(s: string, sep: char)
    ensures Join(Split(s, sep), sep) == s
  {
    if s != [] {
      JoinSplit(s[1..], sep);
      if s[0] == sep {
        JoinSplitAtSeparator(s, sep);
      } else {
        JoinSplitAtOther(s, sep);
      }
    }
  }

  lemma JoinSplitAtSeparator(s: string, sep: char)
    requires s != [] && s[0] == sep
    requires Join(Split(s[1..], sep), sep) == s[1..]
    ensures Join(Split(s, sep), sep) == s
  {
    var rest := Split(s[1..], sep);
    assert Split(s, sep) == [""] + rest;
    JoinCons("", rest, sep);
    assert s == [sep] + s[1..];
  }

  lemma JoinSplitAtOther(s: string, sep: char)
    requires s != [] && s[0] != sep
    requires Join(Split(s[1..], sep), sep) == s[1..]
    ensures Join(Split(s, sep), sep) == s
  {
    var rest := Split(s[1..], sep);
    assert Split(s, sep) == [[s[0]] + rest[0]] + rest[1..];
    assert rest == [rest[0]] + rest[1..];
    if |rest| == 1 {
      assert Join(Split(s, sep), sep) == [s[0]] + rest[0];
    } else {
      JoinPrependChar(rest[0], s[0], rest[1..], sep);
    }
    assert s == [s[0]] + s[1..];
  }

  lemma JoinPrependChar(head: string, c: char, tail: seq<string>, sep: char)
    requires tail != []
    ensures Join([[c] + head] + tail, sep) == [c] + Join([head] + tail, sep)
  {
    assert ([[c] + head] + tail)[1..] == tail;
    assert ([head] + tail)[1..] == tail;
  }

  /** A piece without `sep` in front of a `sep` becomes the first part of the split. */
  lemma {:induction false} SplitAfterPiece(piece: string, sep: char, rest: string)
    requires sep !in piece
    ensures Split(piece + [sep] + rest, sep) == [piece] + Split(rest, sep)
  {
    if piece != [] {
      SplitAfterPiece(piece[1..], sep, rest);
      assert (piece + [sep] + rest)[1..] == piece[1..] + [sep] + rest;
      assert [piece[0]] + piece[1..] == piece;
    } else {
      assert (piece + [sep] + rest)[1..] == rest;
    }
  }

  /** A string without `sep` splits into itself alone. */
  lemma {:induction false} SplitNoSeparator(s: string, sep: char)
    requires sep !in s
    ensures Split(s, sep) == [s]
  {
    if s != [] {
      SplitNoSeparator(s[1..], sep);
      assert [s[0]] + s[1..] == s;
    }
  }

  /** Joining one more part appends a separator and that part. */
  lemma {:induction false} JoinSnoc(parts: seq<string>, x: string, sep: char)
    ensures Join(parts + [x], sep) == if parts == [] then x else Join(parts, sep) + [sep] + x
  {
    if |parts| == 1 {
      assert parts + [x] == [parts[0]] + [x];
      JoinCons(parts[0], [x], sep);
    } else if |parts| > 1 {
      JoinSnoc(parts[1..], x, sep);
      assert (parts + [x])[1..] == parts[1..] + [x];
      JoinCons(parts[0], parts[1..] + [x], sep);
      assert parts + [x] == [parts[0]] + (parts[1..] + [x]);
    }
  }
}
