/** Splitting and joining at a separator, as used by paths and file names. */
module Text {

  /** The pieces between occurrences of `separator`; never empty. */
  function Split<T(==)>(text: seq<T>, separator: T): (parts: seq<seq<T>>)
    ensures |parts| >= 1
    ensures forall i :: 0 <= i < |parts| ==> separator !in parts[i]
  {
    if text == [] then [[]]
    else
      var rest := Split(text[1..], separator);
      if text[0] == separator then [[]] + rest
      else [[text[0]] + rest[0]] + rest[1..]
  }

  function Join<T>(parts: seq<seq<T>>, separator: T): seq<T>
    requires |parts| >= 1
  {
    if |parts| == 1 then parts[0]
    else parts[0] + [separator] + Join(parts[1..], separator)
  }

  lemma {:induction false} JoinSplit<T>(text: seq<T>, separator: T)
    ensures Join(Split(text, separator), separator) == text
  {
    if text != [] {
      var rest := Split(text[1..], separator);
      JoinSplit(text[1..], separator);
      var parts := Split(text, separator);
      if text[0] == separator {
        assert parts[1..] == rest;
        assert Join(parts, separator) == [separator] + Join(rest, separator);
      } else if |rest| > 1 {
        assert parts[1..] == rest[1..];
        assert Join(parts, separator) == [text[0]] + Join(rest, separator);
      }
    }
  }

  lemma {:induction false} SplitOne<T>(part: seq<T>, separator: T)
    requires separator !in part
    ensures Split(part, separator) == [part]
  {
    if part != [] {
      SplitOne(part[1..], separator);
      assert part == [part[0]] + part[1..];
    }
  }

  lemma {:induction false} SplitCons<T>(part: seq<T>, rest: seq<T>, separator: T)
    requires separator !in part
    ensures Split(part + [separator] + rest, separator) == [part] + Split(rest, separator)
  {
    var text := part + [separator] + rest;
    if part == [] {
      assert text[1..] == rest;
    } else {
      assert text[1..] == part[1..] + [separator] + rest;
      SplitCons(part[1..], rest, separator);
      assert part == [part[0]] + part[1..];
    }
  }

  lemma {:induction false} SplitJoin<T>(parts: seq<seq<T>>, separator: T)
    requires |parts| >= 1
    requires forall i :: 0 <= i < |parts| ==> separator !in parts[i]
    ensures Split(Join(parts, separator), separator) == parts
  {
    if |parts| == 1 {
      SplitOne(parts[0], separator);
    } else {
      SplitCons(parts[0], Join(parts[1..], separator), separator);
      SplitJoin(parts[1..], separator);
    }
  }
}
