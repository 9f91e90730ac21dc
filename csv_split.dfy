/** `String.prototype.split` with the one-character separator `','`, as the
    transform UDF calls it: the line is cut at EVERY comma, with no notion of
    quoting or escaping, and a line without commas is a single field. */
module CsvSplit {

  const Comma: char := ','

  /** Number of occurrences of `c` in `s`. */
  function Count(s: string, c: char): (n: nat)
    ensures n <= |s|
    ensures n == 0 <==> c !in s
  {
    if |s| == 0 then 0 else (if s[0] == c then 1 else 0) + Count(s[1..], c)
  }

  /** `s.split(',')`. The empty line gives one empty field, as in JavaScript. */
  function Split(s: string): (fields: seq<string>)
    ensures |fields| == Count(s, Comma) + 1
    ensures forall i :: 0 <= i < |fields| ==> Comma !in fields[i]
  {
    if |s| == 0 then [""]
    else
      var rest := Split(s[1..]);
      if s[0] == Comma then [""] + rest
      else [[s[0]] + rest[0]] + rest[1..]
  }

  /** `fields.join(',')`: the inverse of `Split`. */
  function Join(fields: seq<string>): string
  {
    if |fields| == 0 then ""
    else if |fields| == 1 then fields[0]
    else fields[0] + [Comma] + Join(fields[1..])
  }

  /** Splitting loses nothing: joining the fields back with commas gives the line. */
  lemma {:induction false} JoinSplit(s: string)
    ensures Join(Split(s)) == s
  {
    if |s| > 0 {
      var rest := Split(s[1..]);
      JoinSplit(s[1..]);
      if s[0] == Comma {
        assert Split(s) == [""] + rest;
        assert (([""] + rest)[1..]) == rest;
        assert s == [s[0]] + s[1..];
      } else {
        var fields := Split(s);
        assert fields == [[s[0]] + rest[0]] + rest[1..];
        if |rest| == 1 {
          assert s == [s[0]] + rest[0];
        } else {
          assert fields[1..] == rest[1..];
          assert Join(rest) == rest[0] + [Comma] + Join(rest[1..]);
          assert s == [s[0]] + s[1..];
        }
      }
    }
  }

  /** A comma-free prefix glues onto the first field of what follows it. */
  lemma {:induction false} SplitCommaFreePrefix(f: string, t: string)
    requires Comma !in f
    ensures Split(f + t) == [f + Split(t)[0]] + Split(t)[1..]
  {
    if |f| > 0 {
      SplitCommaFreePrefix(f[1..], t);
      var rest := Split(f[1..] + t);
      assert (f + t)[0] == f[0] && (f + t)[1..] == f[1..] + t;
      assert Split(f + t) == [[f[0]] + rest[0]] + rest[1..];
      assert rest[0] == f[1..] + Split(t)[0] && rest[1..] == Split(t)[1..];
      assert [f[0]] + (f[1..] + Split(t)[0]) == f + Split(t)[0];
    } else {
      assert f + t == t;
      assert f + Split(t)[0] == Split(t)[0];
      assert Split(t) == [Split(t)[0]] + Split(t)[1..];
    }
  }

  /** A line without a comma is a single field: the whole line. */
  lemma SplitWithoutComma(s: string)
    requires Comma !in s
    ensures Split(s) == [s]
  {
    SplitCommaFreePrefix(s, "");
    assert s + "" == s;
  }

  /** Joining comma-free fields and splitting again gives the fields back. */
  lemma {:induction false} SplitJoin(fields: seq<string>)
    requires |fields| >= 1
    requires forall i :: 0 <= i < |fields| ==> Comma !in fields[i]
    ensures Split(Join(fields)) == fields
  {
    if |fields| == 1 {
      SplitCommaFreePrefix(fields[0], "");
      assert fields[0] + "" == fields[0];
    } else {
      var tail := Join(fields[1..]);
      SplitJoin(fields[1..]);
      SplitCommaFreePrefix(fields[0], [Comma] + tail);
      assert Split([Comma] + tail) == [""] + Split(tail) by {
        assert ([Comma] + tail)[1..] == tail;
      }
      assert fields[0] + [Comma] + tail == fields[0] + ([Comma] + tail);
      assert fields[0] + "" == fields[0];
      assert fields == [fields[0]] + fields[1..];
    }
  }
}
