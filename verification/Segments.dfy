/** Splitting a string at a separator and joining it again. */
module Segments {

  /** Python's `s.split(sep)`: always at least one part. */
  function Split(s: string, sep: char): (parts: seq<string>)
    ensures parts != [] && forall p :: p in parts ==> sep !in p
  {
    if s == "" then [""]
    else
      var rest := Split(s[1..], sep);
      if s[0] == sep then [""] + rest else [[s[0]] + rest[0]] + rest[1..]
  }

  /** Python's `sep.join(parts)`. */
  function Join(parts: seq<string>, sep: char): string {
    if parts == [] then ""
    else if |parts| == 1 then parts[0]
    else parts[0] + [sep] + Join(parts[1..], sep)
  }

  lemma {:induction false} JoinSplit(s: string, sep: char)
    ensures Join(Split(s, sep), sep) == s
  {
    if s != "" {
      var rest := Split(s[1..], sep);
      JoinSplit(s[1..], sep);
      if s[0] == sep {
        assert Split(s, sep)[1..] == rest;
      } else {
        var parts := Split(s, sep);
        assert parts[0] == [s[0]] + rest[0] && parts[1..] == rest[1..];
        if |rest| > 1 {
          assert Join(parts, sep) == [s[0]] + (rest[0] + [sep] + Join(rest[1..], sep));
        }
      }
      assert s == [s[0]] + s[1..];
    }
  }

  lemma {:induction false} SplitConcat(a: string, b: string, sep: char)
    ensures Split(a + [sep] + b, sep) == Split(a, sep) + Split(b, sep)
  {
    if a == "" {
      assert a + [sep] + b == [sep] + b;
      SplitCons(sep, b, sep);
    } else {
      var t := a[1..];
      SplitConcat(t, b, sep);
      SplitCons(a[0], t, sep);
      SplitCons(a[0], t + [sep] + b, sep);
      assert a == [a[0]] + t && a + [sep] + b == [a[0]] + (t + [sep] + b);
      PrependConcat(a[0], Split(t, sep), Split(b, sep), sep);
    }
  }

  /** The parts of a string with one more character in front. */
  function Prepend(c: char, parts: seq<string>, sep: char): seq<string>
    requires parts != []
  {
    if c == sep then [""] + parts else [[c] + parts[0]] + parts[1..]
  }

  lemma SplitCons(c: char, t: string, sep: char)
    ensures Split([c] + t, sep) == Prepend(c, Split(t, sep), sep)
  {
    assert ([c] + t)[1..] == t;
  }

  lemma PrependConcat(c: char, a: seq<string>, b: seq<string>, sep: char)
    requires a != []
    ensures Prepend(c, a + b, sep) == Prepend(c, a, sep) + b
  {
    if c == sep {
      assert [""] + (a + b) == [""] + a + b;
    } else {
      assert (a + b)[1..] == a[1..] + b;
    }
  }

  /** Two separators in a row leave an empty part. */
  lemma AdjacentSeparators(s: string, i: nat, sep: char)
    requires i + 1 < |s| && s[i] == s[i + 1] == sep
    ensures "" in Split(s, sep)
  {
    var a, b := s[..i], s[i + 1..];
    assert s == a + [sep] + b;
    SplitConcat(a, b, sep);
    assert Split(b, sep)[0] == "";
    assert Split(s, sep)[|Split(a, sep)|] == "";
  }

  lemma {:induction false} SplitPlain(s: string, sep: char)
    requires sep !in s
    ensures Split(s, sep) == [s]
  {
    if s != "" {
      SplitPlain(s[1..], sep);
      assert s == [s[0]] + s[1..];
    }
  }

  /** Joining and then splitting gives back parts that do not hold the separator. */
  lemma {:induction false} SplitJoin(parts: seq<string>, sep: char)
    requires parts != [] && forall p :: p in parts ==> sep !in p
    ensures Split(Join(parts, sep), sep) == parts
  {
    SplitPlain(parts[0], sep);
    if |parts| > 1 {
      SplitJoin(parts[1..], sep);
      SplitConcat(parts[0], Join(parts[1..], sep), sep);
      assert parts == [parts[0]] + parts[1..];
    }
  }

  lemma {:induction false} JoinConcat(a: seq<string>, b: seq<string>, sep: char)
    requires a != [] && b != []
    ensures Join(a + b, sep) == Join(a, sep) + [sep] + Join(b, sep)
  {
    assert (a + b)[1..] == a[1..] + b;
    if |a| > 1 {
      JoinConcat(a[1..], b, sep);
    }
  }

  /** Being equal to `p` or beginning with `p` and a separator is having the parts of `p` as the first parts. */
  lemma PrefixIsPartPrefix(p: string, s: string, sep: char)
    ensures s == p || p + [sep] <= s <==> Split(p, sep) <= Split(s, sep)
  {
    if p + [sep] <= s {
      var rest := s[|p| + 1..];
      assert s == p + [sep] + rest;
      SplitConcat(p, rest, sep);
    }
    if Split(p, sep) <= Split(s, sep) {
      var rest := Split(s, sep)[|Split(p, sep)|..];
      assert Split(s, sep) == Split(p, sep) + rest;
      JoinSplit(p, sep);
      JoinSplit(s, sep);
      if rest != [] {
        JoinConcat(Split(p, sep), rest, sep);
      } else {
        assert Split(s, sep) == Split(p, sep);
      }
    }
  }

  lemma {:induction false} JoinChars(parts: seq<string>, sep: char, c: char)
    requires c in Join(parts, sep) && c != sep
    ensures exists p :: p in parts && c in p
  {
    if |parts| > 1 && c !in parts[0] {
      JoinChars(parts[1..], sep, c);
      var p :| p in parts[1..] && c in p;
      assert p in parts;
    } else {
      assert parts[0] in parts;
    }
  }
}
