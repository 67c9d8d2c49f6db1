/**
 * `load_lines`: read a text file as a list of lines, trying a fixed list of
 * encodings in order. A decode failure moves on to the next encoding; any
 * other failure ends the attempt at once. Opening and reading the file with
 * one encoding is the abstract `Opener`.
 */
module FileLoader {
  import opened Results

  datatype Encoding = Utf8 | Utf16 | Cp1252 | Latin1 | Iso8859_1

  /** The order in which encodings are tried. */
  const Encodings: seq<Encoding> := [Utf8, Utf16, Cp1252, Latin1, Iso8859_1]

  /** What opening a file with one encoding and reading all its lines gives. */
  datatype Attempt =
    | Decoded(lines: seq<string>)   // the whole file decoded; its lines, terminators kept
    | DecodeError                   // UnicodeDecodeError
    | OtherError(message: string)   // any other exception, with its text

  /** Opening file `path` with an encoding: the file system and the codecs, which are not part of this model. */
  type Opener = (string, Encoding) -> Attempt

  /** The two exceptions `load_lines` raises. */
  datatype LoadError =
    | ReadFailed(path: string, message: string)
    | Undecodable(path: string)
  {
    function Message(): string {
      match this
      case ReadFailed(p, m) => "Error reading file " + p + ": " + m
      case Undecodable(p) => "Could not read file " + p + " with any supported encoding"
    }
  }

  /** First-success selection over `encs`: the outcome of trying each in turn. */
  function TryEncodings(path: string, open: Opener, encs: seq<Encoding>): Result<seq<string>, LoadError>
  {
    if encs == [] then Err(Undecodable(path))
    else match open(path, encs[0])
      case Decoded(lines) => Ok(lines)
      case DecodeError => TryEncodings(path, open, encs[1..])
      case OtherError(m) => Err(ReadFailed(path, m))
  }

  /** What `load_lines(path)` returns or raises. */
  function Load(path: string, open: Opener): Result<seq<string>, LoadError>
  {
    TryEncodings(path, open, Encodings)
  }

  /** `encs[k]` is reached: every encoding before it failed to decode. */
  predicate ReachedAt(path: string, open: Opener, encs: seq<Encoding>, k: nat)
    requires k <= |encs|
  {
    forall j :: 0 <= j < k ==> open(path, encs[j]) == DecodeError
  }

  /** `load_lines` as the source writes it: a loop over the encodings with early return and raise. */
  method LoadLines(path: string, open: Opener) returns (r: Result<seq<string>, LoadError>, ghost tried: seq<Encoding>)
    ensures r == Load(path, open)
    ensures tried != [] && tried <= Encodings
    ensures ReachedAt(path, open, tried, |tried| - 1)
    ensures |tried| < |Encodings| ==> open(path, tried[|tried| - 1]) != DecodeError
    ensures r.Ok? ==> open(path, tried[|tried| - 1]) == Decoded(r.value)
  {
    var i := 0;
    tried := [];
    while i < |Encodings|
      invariant 0 <= i <= |Encodings|
      invariant tried == Encodings[..i]
      invariant ReachedAt(path, open, Encodings, i)
      invariant Load(path, open) == TryEncodings(path, open, Encodings[i..])
    {
      var encoding := Encodings[i];
      tried := tried + [encoding];
      var attempt := open(path, encoding);
      match attempt {
        case Decoded(lines) =>
          return Ok(lines), tried;
        case DecodeError =>
          i := i + 1;
        case OtherError(m) =>
          return Err(ReadFailed(path, m)), tried;
      }
    }
    r := Err(Undecodable(path));
  }

  // ---- the outcome in terms of the individual attempts ----

  /** The result is the lines of the first encoding that decodes, provided every earlier one gave a decode error. */
  lemma {:induction false} TryEncodingsOk(path: string, open: Opener, encs: seq<Encoding>, lines: seq<string>)
    ensures TryEncodings(path, open, encs) == Ok(lines) <==>
      exists k :: 0 <= k < |encs| && ReachedAt(path, open, encs, k) && open(path, encs[k]) == Decoded(lines)
  {
    if encs != [] {
      TryEncodingsOk(path, open, encs[1..], lines);
      if TryEncodings(path, open, encs) == Ok(lines) && open(path, encs[0]) == DecodeError {
        var k :| 0 <= k < |encs| - 1 && ReachedAt(path, open, encs[1..], k) && open(path, encs[1..][k]) == Decoded(lines);
        assert ReachedAt(path, open, encs, k + 1);
      }
      if exists k :: 0 <= k < |encs| && ReachedAt(path, open, encs, k) && open(path, encs[k]) == Decoded(lines) {
        var k :| 0 <= k < |encs| && ReachedAt(path, open, encs, k) && open(path, encs[k]) == Decoded(lines);
        if k > 0 {
          assert ReachedAt(path, open, encs[1..], k - 1);
        }
      }
    }
  }

  /** A read error is raised exactly when the first attempt that is not a decode error is that error. */
  lemma {:induction false} TryEncodingsReadFailed(path: string, open: Opener, encs: seq<Encoding>, m: string)
    ensures TryEncodings(path, open, encs) == Err(ReadFailed(path, m)) <==>
      exists k :: 0 <= k < |encs| && ReachedAt(path, open, encs, k) && open(path, encs[k]) == OtherError(m)
  {
    if encs != [] {
      TryEncodingsReadFailed(path, open, encs[1..], m);
      if TryEncodings(path, open, encs) == Err(ReadFailed(path, m)) && open(path, encs[0]) == DecodeError {
        var k :| 0 <= k < |encs| - 1 && ReachedAt(path, open, encs[1..], k) && open(path, encs[1..][k]) == OtherError(m);
        assert ReachedAt(path, open, encs, k + 1);
      }
      if exists k :: 0 <= k < |encs| && ReachedAt(path, open, encs, k) && open(path, encs[k]) == OtherError(m) {
        var k :| 0 <= k < |encs| && ReachedAt(path, open, encs, k) && open(path, encs[k]) == OtherError(m);
        if k > 0 {
          assert ReachedAt(path, open, encs[1..], k - 1);
        }
      }
    }
  }

  /** "Could not read ... with any supported encoding" is raised exactly when every encoding gave a decode error. */
  lemma {:induction false} TryEncodingsUndecodable(path: string, open: Opener, encs: seq<Encoding>)
    ensures TryEncodings(path, open, encs) == Err(Undecodable(path)) <==> ReachedAt(path, open, encs, |encs|)
  {
    if encs != [] {
      TryEncodingsUndecodable(path, open, encs[1..]);
      if ReachedAt(path, open, encs, |encs|) {
        assert ReachedAt(path, open, encs[1..], |encs| - 1);
      }
      if open(path, encs[0]) == DecodeError && ReachedAt(path, open, encs[1..], |encs| - 1) {
        assert forall j :: 1 <= j < |encs| ==> open(path, encs[j]) == open(path, encs[1..][j - 1]);
      }
    }
  }

  /**
   * Five encoding names are tried, all different as names. Python's codec
   * registry makes `latin-1` and `iso-8859-1` aliases of one codec, so the
   * fifth attempt repeats the fourth (see AliasAttemptRedundant).
   */
  lemma EncodingsDistinct()
    ensures |Encodings| == 5
    ensures forall i, j :: 0 <= i < j < |Encodings| ==> Encodings[i] != Encodings[j]
  {
  }

  /**
   * Latin-1 maps every byte to a character, so if opening with it raises no
   * decode error the "any supported encoding" error is unreachable.
   */
  lemma Latin1Total(path: string, open: Opener)
    requires open(path, Latin1) != DecodeError
    ensures Load(path, open) != Err(Undecodable(path))
  {
    TryEncodingsUndecodable(path, open, Encodings);
    assert Encodings[3] == Latin1;
  }

  /**
   * For an opener that treats `latin-1` and `iso-8859-1` alike, as Python's
   * codecs do, the fifth attempt never changes the outcome: `load_lines`
   * returns or raises what the first four attempts give.
   */
  lemma AliasAttemptRedundant(path: string, open: Opener)
    requires open(path, Latin1) == open(path, Iso8859_1)
    ensures Load(path, open) == TryEncodings(path, open, Encodings[..4])
  {
    var all, four := Encodings, Encodings[..4];
    assert all[3..] == [Latin1, Iso8859_1] && four[3..] == [Latin1];
    assert TryEncodings(path, open, all[3..]) == TryEncodings(path, open, four[3..]) by {
      assert [Latin1, Iso8859_1][1..] == [Iso8859_1];
      assert [Iso8859_1][1..] == [] && [Latin1][1..] == [];
    }
    SameFirst(path, open, all[2..], four[2..]);
    SameFirst(path, open, all[1..], four[1..]);
    SameFirst(path, open, all, four);
  }

  /** Two lists with the same first encoding give the same outcome when their tails do. */
  lemma SameFirst(path: string, open: Opener, a: seq<Encoding>, b: seq<Encoding>)
    requires a != [] && b != [] && a[0] == b[0]
    requires TryEncodings(path, open, a[1..]) == TryEncodings(path, open, b[1..])
    ensures TryEncodings(path, open, a) == TryEncodings(path, open, b)
  {
  }
}
