/** Cutting a text at its first separator, as strings.SplitN(s, sep, 2) and strings.Index do. */
module Splitting {
  import opened Prelude

  function Cut(s: string, sep: char): Option<(string, string)> {
    if s == [] then None
    else if s[0] == sep then Some(([], s[1..]))
    else match Cut(s[1..], sep)
      case None => None
      case Some((a, b)) => Some(([s[0]] + a, b))
  }

  lemma {:induction false} CutIff(s: string, sep: char)
    ensures Cut(s, sep).None? <==> sep !in s
    ensures Cut(s, sep).Some? ==>
              var (a, b) := Cut(s, sep).value; s == a + [sep] + b && sep !in a
  {
    if s != [] && s[0] != sep {
      CutIff(s[1..], sep);
      if Cut(s[1..], sep).Some? {
        var (a, b) := Cut(s[1..], sep).value;
        assert s == [s[0]] + s[1..];
        assert [s[0]] + (a + [sep] + b) == ([s[0]] + a) + [sep] + b;
      }
    }
  }

  /** A text with a separator has one way to be cut at the first. */
  lemma {:induction false} CutJoined(a: string, sep: char, b: string)
    requires sep !in a
    ensures Cut(a + [sep] + b, sep) == Some((a, b))
  {
    var s := a + [sep] + b;
    if a == [] {
      assert s[1..] == b;
    } else {
      CutJoined(a[1..], sep, b);
      assert s[1..] == a[1..] + [sep] + b;
      assert [a[0]] + a[1..] == a;
    }
  }

  /** The parts of a join whose first part is free of the separator can be told apart. */
  lemma JoinInjective(a: string, b: string, a': string, b': string, sep: char)
    requires sep !in a && sep !in a' && a + [sep] + b == a' + [sep] + b'
    ensures a == a' && b == b'
  {
    CutJoined(a, sep, b);
    CutJoined(a', sep, b');
  }
}
