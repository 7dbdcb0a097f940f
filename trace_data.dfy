/**
 * The pure part of reading a trace: `sData.split(',')` followed by
 * `[float(s) for s in splitData]`, and `np.average` for the zero-span value.
 * Conversion of one field is given as a function `parse` (None when `float`
 * raises); samples are exact reals.
 */
module TraceData {
  import opened Wrappers

  /** Number of occurrences of `c` in `s`. */
  function Occurrences(s: string, c: char): nat
  {
    if |s| == 0 then 0 else (if s[0] == c then 1 else 0) + Occurrences(s[1..], c)
  }

  /** Python's `s.split(sep)` with an explicit separator. */
  function Split(s: string, sep: char): (fields: seq<string>)
    ensures |fields| >= 1
  {
    if |s| == 0 then [""]
    else
      var rest := Split(s[1..], sep);
      if s[0] == sep then [""] + rest else [[s[0]] + rest[0]] + rest[1..]
  }

  /** No field of a split holds the separator. */
  lemma {:induction false} SplitFieldsFree(s: string, sep: char)
    ensures forall i :: 0 <= i < |Split(s, sep)| ==> sep !in Split(s, sep)[i]
  {
    if |s| > 0 {
      SplitFieldsFree(s[1..], sep);
    }
  }

  /** `sep.join(fields)`. */
  function Join(fields: seq<string>, sep: char): string
    requires |fields| >= 1
  {
    if |fields| == 1 then fields[0] else fields[0] + [sep] + Join(fields[1..], sep)
  }

  /** Splitting yields one field more than there are separators. */
  lemma {:induction false} SplitCount(s: string, sep: char)
    ensures |Split(s, sep)| == Occurrences(s, sep) + 1
  {
    if |s| > 0 {
      SplitCount(s[1..], sep);
    }
  }

  /** Joining the fields again gives back the reply. */
  lemma {:induction false} JoinSplit(s: string, sep: char)
    ensures Join(Split(s, sep), sep) == s
  {
    if |s| > 0 {
      var rest := Split(s[1..], sep);
      JoinSplit(s[1..], sep);
      if s[0] == sep {
        assert Split(s, sep)[1..] == rest;
      } else {
        var fs := Split(s, sep);
        if |rest| == 1 {
          assert fs == [[s[0]] + rest[0]];
        } else {
          assert fs[1..] == rest[1..];
          assert Join(rest, sep) == rest[0] + [sep] + Join(rest[1..], sep);
        }
      }
    }
  }

  /** Fields free of the separator are recovered by splitting their join. */
  lemma {:induction false} SplitJoin(fields: seq<string>, sep: char)
    requires |fields| >= 1
    requires forall i :: 0 <= i < |fields| ==> sep !in fields[i]
    ensures Split(Join(fields, sep), sep) == fields
    decreases |fields|, |fields[0]|
  {
    var f := fields[0];
    if |fields| == 1 {
      SplitPlain(f, sep);
    } else if |f| == 0 {
      var j := Join(fields, sep);
      SplitJoin(fields[1..], sep);
      assert j == [sep] + Join(fields[1..], sep);
      assert j[0] == sep && j[1..] == Join(fields[1..], sep);
      assert fields == [f] + fields[1..];
    } else {
      var shorter := [f[1..]] + fields[1..];
      assert sep !in f[1..] by {
        forall k | 0 <= k < |f| - 1 ensures f[1..][k] != sep { assert f[1..][k] == f[k + 1]; }
      }
      SplitJoin(shorter, sep);
      assert shorter[1..] == fields[1..];
      var j := Join(fields, sep);
      assert Join(shorter, sep) == f[1..] + [sep] + Join(fields[1..], sep);
      assert j == [f[0]] + Join(shorter, sep);
      assert j[0] == f[0] && j[1..] == Join(shorter, sep);
      assert f[0] != sep;
      assert [f[0]] + f[1..] == f;
      assert fields == [f] + fields[1..];
    }
  }

  /** A string without the separator splits into itself. */
  lemma {:induction false} SplitPlain(s: string, sep: char)
    requires sep !in s
    ensures Split(s, sep) == [s]
  {
    if |s| > 0 {
      assert sep !in s[1..] by {
        forall k | 0 <= k < |s| - 1 ensures s[1..][k] != sep { assert s[1..][k] == s[k + 1]; }
      }
      SplitPlain(s[1..], sep);
      assert s[0] != sep;
      assert [s[0]] + s[1..] == s;
    }
  }

  /**
   * `[float(x) for x in fields]`: all fields converted, in order, or None as
   * soon as one conversion fails, so that no partial list exists.
   */
  function ConvertAll(fields: seq<string>, parse: string -> Option<real>): (r: Option<seq<real>>)
    ensures r.Some? ==> |r.value| == |fields|
  {
    if |fields| == 0 then Some([])
    else
      match parse(fields[0])
      case None => None
      case Some(x) =>
        match ConvertAll(fields[1..], parse)
        case None => None
        case Some(xs) => Some([x] + xs)
  }

  /** The conversion succeeds iff every field converts, and then keeps order and values. */
  lemma {:induction false} ConvertAllSpec(fields: seq<string>, parse: string -> Option<real>)
    ensures ConvertAll(fields, parse).Some? <==> forall i :: 0 <= i < |fields| ==> parse(fields[i]).Some?
    ensures ConvertAll(fields, parse).Some? ==>
      forall i :: 0 <= i < |fields| ==> parse(fields[i]) == Some(ConvertAll(fields, parse).value[i])
  {
    if |fields| > 0 {
      ConvertAllSpec(fields[1..], parse);
      if parse(fields[0]).Some? && ConvertAll(fields[1..], parse).Some? {
        var xs := ConvertAll(fields[1..], parse).value;
        assert ConvertAll(fields, parse).value == [parse(fields[0]).value] + xs;
        forall i | 0 < i < |fields| ensures parse(fields[i]) == Some(ConvertAll(fields, parse).value[i]) {
          assert fields[i] == fields[1..][i - 1];
        }
      } else if parse(fields[0]).Some? {
        var i :| 0 <= i < |fields[1..]| && parse(fields[1..][i]).None?;
        assert parse(fields[i + 1]).None?;
      }
    }
  }

  function Sum(xs: seq<real>): real
  {
    if |xs| == 0 then 0.0 else xs[0] + Sum(xs[1..])
  }

  /** `np.average` of a non-empty list of samples, in exact arithmetic. */
  function Mean(xs: seq<real>): real
    requires |xs| > 0
  {
    Sum(xs) / (|xs| as real)
  }

  lemma {:induction false} SumBounds(xs: seq<real>, lo: real, hi: real)
    requires forall i :: 0 <= i < |xs| ==> lo <= xs[i] <= hi
    ensures (|xs| as real) * lo <= Sum(xs) <= (|xs| as real) * hi
  {
    if |xs| > 0 {
      SumBounds(xs[1..], lo, hi);
    }
  }

  /** The zero-span value lies between the smallest and the largest sample. */
  lemma MeanBounds(xs: seq<real>, lo: real, hi: real)
    requires |xs| > 0
    requires forall i :: 0 <= i < |xs| ==> lo <= xs[i] <= hi
    ensures lo <= Mean(xs) <= hi
  {
    SumBounds(xs, lo, hi);
    var n := |xs| as real;
    assert Mean(xs) * n == Sum(xs);
  }

  /** The mean of "1,2,3" is 2. */
  lemma MeanExample()
    ensures Mean([1.0, 2.0, 3.0]) == 2.0
  {
    assert Sum([1.0, 2.0, 3.0]) == 6.0 by {
      assert [1.0, 2.0, 3.0][1..] == [2.0, 3.0];
      assert [2.0, 3.0][1..] == [3.0];
    }
  }
}
