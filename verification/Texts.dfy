/** Cutting strings: prefixes, suffixes and separators. */
module Texts {
  import opened Wrappers
  import opened Strings

  function StripPrefix(s: string, prefix: string): (r: Option<string>)
    ensures r.Some? <==> exists rest :: s == prefix + rest
    ensures r.Some? ==> s == prefix + r.value
  {
    if |prefix| <= |s| && s[..|prefix|] == prefix then
      assert s == prefix + s[|prefix|..];
      Some(s[|prefix|..])
    else None
  }

  function StripSuffix(s: string, suffix: string): (r: Option<string>)
    ensures r.Some? <==> exists rest :: s == rest + suffix
    ensures r.Some? ==> s == r.value + suffix
  {
    var cut := |s| - |suffix|;
    if 0 <= cut && s[cut..] == suffix then
      assert s == s[..cut] + suffix;
      Some(s[..cut])
    else
      assert forall rest :: s == rest + suffix ==> s[|rest|..] == suffix;
      None
  }

  lemma StripSuffixOf(rest: string, suffix: string)
    ensures StripSuffix(rest + suffix, suffix) == Some(rest)
  {
    assert (rest + suffix)[|rest|..] == suffix;
    assert (rest + suffix)[..|rest|] == rest;
  }

  lemma StripPrefixOf(prefix: string, rest: string)
    ensures StripPrefix(prefix + rest, prefix) == Some(rest)
  {
    assert (prefix + rest)[..|prefix|] == prefix;
    assert (prefix + rest)[|prefix|..] == rest;
  }

  /** The parts before and after the first separator. */
  function SplitOnce(s: string, separator: char): (r: Option<(string, string)>)
    ensures r.None? <==> separator !in s
    ensures r.Some? ==> separator !in r.value.0 && s == r.value.0 + [separator] + r.value.1
  {
    if s == "" then None
    else if s[0] == separator then
      assert s == "" + [separator] + s[1..];
      Some(("", s[1..]))
    else
      match SplitOnce(s[1..], separator)
      case None => None
      case Some((head, tail)) =>
        assert s == [s[0]] + s[1..];
        Some(([s[0]] + head, tail))
  }

  lemma {:induction false} SplitOnceOf(head: string, separator: char, tail: string)
    requires separator !in head
    ensures SplitOnce(head + [separator] + tail, separator) == Some((head, tail))
  {
    var s := head + [separator] + tail;
    if head == "" {
      assert s[1..] == tail;
    } else {
      assert s[1..] == head[1..] + [separator] + tail;
      SplitOnceOf(head[1..], separator, tail);
      assert [head[0]] + head[1..] == head;
    }
  }

  /** The parts between separators; a text without separator is one part. */
  function Split(s: string, separator: char): (parts: seq<string>)
    ensures parts != []
    decreases |s|
  {
    match SplitOnce(s, separator)
    case None => [s]
    case Some((head, tail)) => [head] + Split(tail, separator)
  }

  /** Splitting undoes joining, for parts without the separator. */
  lemma {:induction false} SplitJoin(parts: seq<string>, separator: char)
    requires parts != [] && forall i :: 0 <= i < |parts| ==> separator !in parts[i]
    ensures Split(Join(parts, [separator]), separator) == parts
    decreases |parts|
  {
    if |parts| == 1 {
      assert parts == [parts[0]];
    } else {
      SplitOnceOf(parts[0], separator, Join(parts[1..], [separator]));
      SplitJoin(parts[1..], separator);
      assert [parts[0]] + parts[1..] == parts;
    }
  }

  /** Joining undoes splitting. */
  lemma {:induction false} JoinSplit(s: string, separator: char)
    ensures Join(Split(s, separator), [separator]) == s
    ensures forall i :: 0 <= i < |Split(s, separator)| ==> separator !in Split(s, separator)[i]
    decreases |s|
  {
    if separator in s {
      var (head, tail) := SplitOnce(s, separator).value;
      JoinSplit(tail, separator);
      assert Split(s, separator)[1..] == Split(tail, separator);
    }
  }
}
