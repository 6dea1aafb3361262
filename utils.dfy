/**
 * The string helpers of the plugin: `split` on a set of separator
 * characters, the quote-aware `csv_split`, the `exec_guard` that keeps a
 * function from running twice at once, and the parsing of the time-zone
 * services' responses.
 */
module Utils {
  import opened Wrappers
  import opened CppInt

  // ---------------------------------------------------------------------------
  // The `std::string` search functions; `npos` is represented by |s|.

  /** `s.find_first_not_of(seps, from)`. */
  function FirstNotOf(s: string, seps: string, from: nat): (i: nat)
    requires from <= |s|
    ensures from <= i <= |s|
    ensures i < |s| ==> s[i] !in seps
    ensures forall k :: from <= k < i ==> s[k] in seps
    decreases |s| - from
  {
    if from == |s| || s[from] !in seps then from else FirstNotOf(s, seps, from + 1)
  }

  /** `s.find_first_of(seps, from)`. */
  function FirstOf(s: string, seps: string, from: nat): (i: nat)
    requires from <= |s|
    ensures from <= i <= |s|
    ensures i < |s| ==> s[i] in seps
    ensures forall k :: from <= k < i ==> s[k] !in seps
    decreases |s| - from
  {
    if from == |s| || s[from] in seps then from else FirstOf(s, seps, from + 1)
  }

  /** `s.find(c, from)`. */
  function Find(s: string, c: char, from: nat): (i: nat)
    requires from <= |s|
    ensures from <= i <= |s|
    ensures i < |s| ==> s[i] == c
    ensures forall k :: from <= k < i ==> s[k] != c
    decreases |s| - from
  {
    if from == |s| || s[from] == c then from else Find(s, c, from + 1)
  }

  lemma AppendAssoc<T>(a: seq<T>, b: seq<T>, c: seq<T>)
    ensures a + (b + c) == (a + b) + c
  {
  }

  // ---------------------------------------------------------------------------
  // split

  /** The cap that applies to the rest of the input once n tokens are out (0: none). */
  function Remaining(maxTokens: nat, n: nat): nat {
    if maxTokens == 0 || maxTokens <= n then 0 else maxTokens - n
  }

  /**
   * What `split` produces from position `pos` of t when at most k more
   * tokens are allowed (0: no cap): skip separators, then either take the
   * rest of the input as the last token (when only one more is allowed) or
   * take the run up to the next separator and go on from there.
   */
  function SplitFrom(t: string, seps: string, pos: nat, k: nat): (r: seq<string>)
    requires pos <= |t|
    decreases |t| - pos
  {
    var start := FirstNotOf(t, seps, pos);
    if start == |t| then []
    else if k == 1 then [t[start..]]
    else
      var finish := FirstOf(t, seps, start);
      [t[start..finish]] + SplitFrom(t, seps, finish, if k == 0 then 0 else k - 1)
  }

  /** What `split(t, seps, k)` produces. */
  function SplitSpec(t: string, seps: string, k: nat): seq<string> {
    SplitFrom(t, seps, 0, k)
  }

  /** `split(input, seps, max_tokens)`. */
  method Split(input: string, seps: string, maxTokens: nat) returns (result: seq<string>)
    ensures result == SplitSpec(input, seps, maxTokens)
  {
    result := [];
    var start := FirstNotOf(input, seps, 0);
    ghost var pos := 0;
    while start < |input|
      invariant pos <= start <= |input|
      invariant start == FirstNotOf(input, seps, pos)
      invariant maxTokens == 0 || |result| < maxTokens
      invariant result + SplitFrom(input, seps, pos, Remaining(maxTokens, |result|))
                == SplitSpec(input, seps, maxTokens)
      decreases |input| - start
    {
      // with one token left under the cap, the rest of the input is that token
      if maxTokens != 0 && |result| + 1 == maxTokens {
        result := result + [input[start..]];
        break;
      }
      var finish := FirstOf(input, seps, start);
      ghost var rest := SplitFrom(input, seps, finish, Remaining(maxTokens, |result| + 1));
      assert SplitFrom(input, seps, pos, Remaining(maxTokens, |result|)) == [input[start..finish]] + rest;
      AppendAssoc(result, [input[start..finish]], rest);
      result := result + [input[start..finish]];
      start := FirstNotOf(input, seps, finish);
      pos := finish;
    }
  }

  /**
   * The pieces between separators from position pos on, one more than there
   * are separators: what cutting the input at every separator character
   * gives, empty pieces included.
   */
  function PiecesFrom(t: string, seps: string, pos: nat): (r: seq<string>)
    requires pos <= |t|
    ensures |r| >= 1
    decreases |t| - pos
  {
    var i := FirstOf(t, seps, pos);
    if i == |t| then [t[pos..]] else [t[pos..i]] + PiecesFrom(t, seps, i + 1)
  }

  /** The non-empty elements of ps, in order. */
  function NonEmpty(ps: seq<string>): (r: seq<string>)
    ensures |r| <= |ps|
  {
    if |ps| == 0 then []
    else if |ps[0]| == 0 then NonEmpty(ps[1..])
    else [ps[0]] + NonEmpty(ps[1..])
  }

  /**
   * Without a cap, `split` yields exactly the maximal runs of non-separator
   * characters, in order: the non-empty pieces between separators.
   */
  lemma {:induction false} SplitIsMaximalRuns(t: string, seps: string, pos: nat)
    requires pos <= |t|
    ensures SplitFrom(t, seps, pos, 0) == NonEmpty(PiecesFrom(t, seps, pos))
    decreases |t| - pos, 1
  {
    if pos == |t| {
      assert PiecesFrom(t, seps, pos) == [""] by {
        assert t[pos..] == "";
      }
    } else if t[pos] in seps {
      PiecesAtSeparator(t, seps, pos);
      NonEmptyCons("", PiecesFrom(t, seps, pos + 1));
      SplitSkipsSeparator(t, seps, pos, 0);
      SplitIsMaximalRuns(t, seps, pos + 1);
    } else {
      RunIsToken(t, seps, pos);
    }
  }

  /** A run starting at pos is the first token, and the first non-empty piece. */
  lemma {:induction false} RunIsToken(t: string, seps: string, pos: nat)
    requires pos < |t| && t[pos] !in seps
    ensures SplitFrom(t, seps, pos, 0) == NonEmpty(PiecesFrom(t, seps, pos))
    decreases |t| - pos, 0
  {
    var i := FirstOf(t, seps, pos);
    var run := t[pos..i];
    assert |run| > 0;
    if i < |t| {
      var rest := PiecesFrom(t, seps, i + 1);
      assert SplitFrom(t, seps, pos, 0) == [run] + SplitFrom(t, seps, i + 1, 0) by {
        SplitAtRun(t, seps, pos);
        SplitSkipsSeparator(t, seps, i, 0);
      }
      assert SplitFrom(t, seps, i + 1, 0) == NonEmpty(rest) by {
        SplitIsMaximalRuns(t, seps, i + 1);
      }
      assert NonEmpty(PiecesFrom(t, seps, pos)) == [run] + NonEmpty(rest) by {
        PiecesAtRun(t, seps, pos);
        NonEmptyCons(run, rest);
      }
    } else {
      assert SplitFrom(t, seps, pos, 0) == [run] + SplitFrom(t, seps, i, 0) by {
        SplitAtRun(t, seps, pos);
      }
      assert NonEmpty(PiecesFrom(t, seps, pos)) == [run] + NonEmpty([]) by {
        PiecesAtLastRun(t, seps, pos);
        NonEmptyCons(run, []);
      }
    }
  }

  /** Without a cap, a run starting at pos is the first token. */
  lemma SplitAtRun(t: string, seps: string, pos: nat)
    requires pos < |t| && t[pos] !in seps
    ensures var i := FirstOf(t, seps, pos);
            SplitFrom(t, seps, pos, 0) == [t[pos..i]] + SplitFrom(t, seps, i, 0)
  {
  }

  /** A run ended by a separator is the first piece. */
  lemma PiecesAtRun(t: string, seps: string, pos: nat)
    requires pos < |t|
    requires FirstOf(t, seps, pos) < |t|
    ensures var i := FirstOf(t, seps, pos);
            PiecesFrom(t, seps, pos) == [t[pos..i]] + PiecesFrom(t, seps, i + 1)
  {
  }

  /** A run reaching the end of the input is the only piece. */
  lemma PiecesAtLastRun(t: string, seps: string, pos: nat)
    requires pos < |t|
    requires FirstOf(t, seps, pos) == |t|
    ensures PiecesFrom(t, seps, pos) == [t[pos..|t|]] + []
  {
    assert t[pos..] == t[pos..|t|];
  }

  /** A separator at pos does not change what `split` produces from pos. */
  lemma SplitSkipsSeparator(t: string, seps: string, pos: nat, k: nat)
    requires pos < |t| && t[pos] in seps
    ensures SplitFrom(t, seps, pos, k) == SplitFrom(t, seps, pos + 1, k)
  {
    assert FirstNotOf(t, seps, pos) == FirstNotOf(t, seps, pos + 1);
  }

  /** A separator at pos closes an empty piece. */
  lemma PiecesAtSeparator(t: string, seps: string, pos: nat)
    requires pos < |t| && t[pos] in seps
    ensures PiecesFrom(t, seps, pos) == [""] + PiecesFrom(t, seps, pos + 1)
  {
    assert FirstOf(t, seps, pos) == pos;
    assert t[pos..pos] == "";
  }

  lemma NonEmptyCons(x: string, rest: seq<string>)
    ensures NonEmpty([x] + rest) == if |x| == 0 then NonEmpty(rest) else [x] + NonEmpty(rest)
  {
    assert ([x] + rest)[1..] == rest;
  }

  /** No piece holds a separator. */
  lemma {:induction false} PiecesHoldNoSeparator(t: string, seps: string, pos: nat)
    requires pos <= |t|
    ensures forall p <- PiecesFrom(t, seps, pos) :: forall c <- p :: c !in seps
    decreases |t| - pos
  {
    var i := FirstOf(t, seps, pos);
    if i < |t| {
      PiecesHoldNoSeparator(t, seps, i + 1);
    }
  }

  /** NonEmpty keeps exactly the non-empty elements. */
  lemma {:induction false} NonEmptyElements(ps: seq<string>)
    ensures forall x :: x in NonEmpty(ps) <==> x in ps && |x| > 0
  {
    if |ps| > 0 {
      NonEmptyElements(ps[1..]);
      assert ps == [ps[0]] + ps[1..];
    }
  }

  /** Without a cap, every token is non-empty and holds no separator. */
  lemma SplitTokensAreRuns(t: string, seps: string)
    ensures forall tok <- SplitSpec(t, seps, 0) :: |tok| > 0 && forall c <- tok :: c !in seps
  {
    SplitIsMaximalRuns(t, seps, 0);
    PiecesHoldNoSeparator(t, seps, 0);
    NonEmptyElements(PiecesFrom(t, seps, 0));
  }

  /** `split` yields nothing exactly when the input is all separators (or empty). */
  lemma SplitEmpty(t: string, seps: string, k: nat)
    ensures SplitSpec(t, seps, k) == [] <==> forall c <- t :: c in seps
  {
    var start := FirstNotOf(t, seps, 0);
    if start < |t| {
      assert t[start] in t;
    }
  }

  /**
   * With a cap of k > 0 tokens, `split` agrees with the uncapped split on
   * all but the last token it produces, produces min(k, n) tokens where n is
   * the number of runs, and is the uncapped split when there are fewer than
   * k runs. A k-th token is the rest of the input from the start of the k-th
   * run, separators included.
   */
  lemma {:induction false} SplitCapped(t: string, seps: string, pos: nat, k: nat)
    requires pos <= |t| && k > 0
    ensures var r := SplitFrom(t, seps, pos, k);
            var full := SplitFrom(t, seps, pos, 0);
            |r| == (if |full| < k then |full| else k) &&
            (|r| > 0 ==> r[..|r| - 1] == full[..|r| - 1]) &&
            (|full| < k ==> r == full) &&
            (|r| == k ==> exists j :: pos <= j < |t| && t[j] !in seps && r[k - 1] == t[j..])
    decreases |t| - pos
  {
    var start := FirstNotOf(t, seps, pos);
    if start == |t| {
    } else if k == 1 {
      assert SplitFrom(t, seps, pos, k)[0] == t[start..];
    } else {
      var finish := FirstOf(t, seps, start);
      SplitCapped(t, seps, finish, k - 1);
      var r' := SplitFrom(t, seps, finish, k - 1);
      var full' := SplitFrom(t, seps, finish, 0);
      var r := SplitFrom(t, seps, pos, k);
      var full := SplitFrom(t, seps, pos, 0);
      assert r == [t[start..finish]] + r';
      assert full == [t[start..finish]] + full';
      if |r'| > 0 {
        assert r[..|r| - 1] == [t[start..finish]] + r'[..|r'| - 1];
        assert full[..|r| - 1] == [t[start..finish]] + full'[..|r'| - 1];
      }
      if |r| == k {
        assert r[k - 1] == r'[k - 2];
      }
    }
  }

  // ---------------------------------------------------------------------------
  // csv_split

  predicate IsQuote(c: char) {
    c == '"' || c == '\''
  }

  /**
   * The first comma at or after i that is not inside quotes; |s| when there
   * is none, or when an opening quote is never closed.
   */
  function NextComma(s: string, i: nat): (j: nat)
    requires i <= |s|
    ensures i <= j <= |s|
    ensures j < |s| ==> s[j] == ','
    decreases |s| - i
  {
    if i == |s| then |s|
    else if IsQuote(s[i]) then
      var q := Find(s, s[i], i + 1);
      if q == |s| then |s| else NextComma(s, q + 1)
    else if s[i] == ',' then i
    else NextComma(s, i + 1)
  }

  /** The CSV tokens of s from position `start` on. */
  function CsvFrom(s: string, start: nat): (r: seq<string>)
    requires start <= |s|
    ensures |r| >= 1
    decreases |s| - start
  {
    var j := NextComma(s, start);
    if j == |s| then [s[start..]] else [s[start..j]] + CsvFrom(s, j + 1)
  }

  /** What `csv_split(s)` produces. */
  function CsvTokens(s: string): (r: seq<string>)
    ensures |r| >= 1
  {
    CsvFrom(s, 0)
  }

  /** The scan of `csv_split` from position i, with the current token starting at `start`. */
  function CsvScan(s: string, i: nat, start: nat, done: seq<string>): seq<string>
    requires start <= i <= |s|
    decreases |s| - i
  {
    if i == |s| then done + [s[start..]]
    else if IsQuote(s[i]) then
      var q := Find(s, s[i], i + 1);
      if q == |s| then done + [s[start..]] else CsvScan(s, q + 1, start, done)
    else if s[i] == ',' then CsvScan(s, i + 1, i + 1, done + [s[start..i]])
    else CsvScan(s, i + 1, start, done)
  }

  /** The scan produces the tokens already cut followed by the CSV tokens from `start` on. */
  lemma {:induction false} CsvScanTokens(s: string, i: nat, start: nat, done: seq<string>)
    requires start <= i <= |s|
    requires NextComma(s, i) == NextComma(s, start)
    ensures CsvScan(s, i, start, done) == done + CsvFrom(s, start)
    decreases |s| - i, 1
  {
    if i == |s| {
      CsvLast(s, start);
    } else if IsQuote(s[i]) {
      CsvScanQuote(s, i, start, done);
    } else if s[i] == ',' {
      CsvScanComma(s, i, start, done);
    } else {
      CsvScanOther(s, i, start, done);
    }
  }

  lemma {:induction false} CsvScanQuote(s: string, i: nat, start: nat, done: seq<string>)
    requires start <= i < |s| && IsQuote(s[i])
    requires NextComma(s, i) == NextComma(s, start)
    ensures CsvScan(s, i, start, done) == done + CsvFrom(s, start)
    decreases |s| - i, 0
  {
    NextCommaQuoted(s, i);
    var q := Find(s, s[i], i + 1);
    if q == |s| {
      CsvLast(s, start);
      assert CsvScan(s, i, start, done) == done + [s[start..]];
    } else {
      assert CsvScan(s, i, start, done) == CsvScan(s, q + 1, start, done);
      CsvScanTokens(s, q + 1, start, done);
    }
  }

  lemma {:induction false} CsvScanComma(s: string, i: nat, start: nat, done: seq<string>)
    requires start <= i < |s| && !IsQuote(s[i]) && s[i] == ','
    requires NextComma(s, i) == NextComma(s, start)
    ensures CsvScan(s, i, start, done) == done + CsvFrom(s, start)
    decreases |s| - i, 0
  {
    var tok := s[start..i];
    assert CsvScan(s, i, start, done) == CsvScan(s, i + 1, i + 1, done + [tok]);
    CsvScanTokens(s, i + 1, i + 1, done + [tok]);
    CsvComma(s, start, i);
    AppendAssoc(done, [tok], CsvFrom(s, i + 1));
  }

  lemma {:induction false} CsvScanOther(s: string, i: nat, start: nat, done: seq<string>)
    requires start <= i < |s| && !IsQuote(s[i]) && s[i] != ','
    requires NextComma(s, i) == NextComma(s, start)
    ensures CsvScan(s, i, start, done) == done + CsvFrom(s, start)
    decreases |s| - i, 0
  {
    assert CsvScan(s, i, start, done) == CsvScan(s, i + 1, start, done);
    NextCommaPlain(s, i);
    CsvScanTokens(s, i + 1, start, done);
  }

  /**
   * `csv_split`: cuts at every comma outside single or double quotes, keeps
   * empty tokens, and stops at a quote that is never closed, making the rest
   * of the input the last token.
   */
  method CsvSplit(input: string) returns (result: seq<string>)
    ensures result == CsvTokens(input)
  {
    result := [];
    var start := 0;
    var i := 0;
    CsvScanTokens(input, 0, 0, []);
    while i < |input|
      invariant start <= i <= |input|
      invariant CsvScan(input, i, start, result) == CsvTokens(input)
      decreases |input| - i
    {
      var c := input[i];
      if IsQuote(c) {
        var q := Find(input, c, i + 1);
        if q == |input| {
          break;
        }
        i := q;
      } else if c == ',' {
        result := result + [input[start..i]];
        start := i + 1;
      }
      i := i + 1;
    }
    result := result + [input[start..]];
  }

  /** A quoted stretch is skipped whole; an unclosed quote ends the search. */
  lemma NextCommaQuoted(s: string, i: nat)
    requires i < |s| && IsQuote(s[i])
    ensures var q := Find(s, s[i], i + 1);
            NextComma(s, i) == if q == |s| then |s| else NextComma(s, q + 1)
  {
  }

  /** Any other character belongs to the current token. */
  lemma NextCommaPlain(s: string, i: nat)
    requires i < |s| && !IsQuote(s[i]) && s[i] != ','
    ensures NextComma(s, i) == NextComma(s, i + 1)
  {
  }

  /** With no comma left outside quotes, the rest of the input is the last token. */
  lemma CsvLast(s: string, start: nat)
    requires start <= |s| && NextComma(s, start) == |s|
    ensures CsvFrom(s, start) == [s[start..]]
  {
  }

  /** A comma outside quotes ends the token that began at `start`. */
  lemma CsvComma(s: string, start: nat, i: nat)
    requires start <= i < |s| && s[i] == ','
    requires NextComma(s, i) == NextComma(s, start)
    ensures CsvFrom(s, start) == [s[start..i]] + CsvFrom(s, i + 1)
  {
    assert NextComma(s, start) == i;
  }

  /** The tokens with `sep` between each two of them. */
  function Join(tokens: seq<string>, sep: char): string {
    if |tokens| == 0 then ""
    else if |tokens| == 1 then tokens[0]
    else tokens[0] + [sep] + Join(tokens[1..], sep)
  }

  /** Nothing is lost or added: joining the CSV tokens with commas gives back the input. */
  lemma {:induction false} CsvJoin(s: string, start: nat)
    requires start <= |s|
    ensures Join(CsvFrom(s, start), ',') == s[start..]
    decreases |s| - start
  {
    var j := NextComma(s, start);
    if j < |s| {
      var rest := CsvFrom(s, j + 1);
      assert CsvFrom(s, start) == [s[start..j]] + rest;
      CsvJoin(s, j + 1);
      JoinCons(s[start..j], rest, ',');
      SliceAround(s, start, j);
    } else {
      assert CsvFrom(s, start) == [s[start..]];
    }
  }

  lemma SliceAround<T>(s: seq<T>, a: nat, j: nat)
    requires a <= j < |s|
    ensures s[a..] == s[a..j] + [s[j]] + s[j + 1..]
  {
  }

  lemma JoinCons(x: string, rest: seq<string>, sep: char)
    requires |rest| >= 1
    ensures Join([x] + rest, sep) == x + [sep] + Join(rest, sep)
  {
    assert ([x] + rest)[1..] == rest;
  }

  /** The same holds for the whole input. */
  lemma CsvSplitRoundTrip(s: string)
    ensures Join(CsvTokens(s), ',') == s
  {
    CsvJoin(s, 0);
    assert s[0..] == s;
  }

  /** A quote that is never closed ends the scan: the rest of the input is the last token. */
  lemma CsvUnclosedQuote(s: string, start: nat, q: nat)
    requires start <= q < |s| && IsQuote(s[q])
    requires NextComma(s, start) == NextComma(s, q)
    requires Find(s, s[q], q + 1) == |s|
    ensures CsvFrom(s, start) == [s[start..]]
  {
  }

  // ---------------------------------------------------------------------------
  // exec_guard

  /** A `std::atomic<bool>`. */
  class AtomicBool {
    var value: bool

    constructor (v: bool)
      ensures value == v
    {
      value := v;
    }
  }

  const NetworkInitFailed: string := "Network error (nn::ac::Initialize() failed)"
  const NetworkConnectFailed: string := "Network error (nn::ac::Connect() failed)"

  /**
   * `network_guard`: initializes the network library, then connects. The
   * result is the error its constructor throws, if any: the first of the two
   * steps that fails decides the message, and a failed initialization never
   * tries to connect.
   */
  function NetworkGuard(initialized: bool, connected: bool): (r: Option<Error>)
    ensures r.None? <==> initialized && connected
    ensures !initialized ==> r == Some(RuntimeError(NetworkInitFailed))
    ensures initialized && !connected ==> r == Some(RuntimeError(NetworkConnectFailed))
  {
    if !initialized then Some(RuntimeError(NetworkInitFailed))
    else if !connected then Some(RuntimeError(NetworkConnectFailed))
    else None
  }

  /**
   * `exec_guard`: an RAII guard that sets the flag if it was clear (a
   * compare-and-swap from false to true) and remembers whether it did.
   */
  class ExecGuard {
    const flag: AtomicBool
    var guarded: bool

    constructor (f: AtomicBool)
      modifies f
      ensures flag == f
      ensures guarded <==> !old(f.value)
      ensures f.value
    {
      flag := f;
      guarded := !f.value;
      new;
      f.value := true;
    }

    /** The destructor: a guard that set the flag clears it; any other leaves it alone. */
    method Release()
      modifies flag
      ensures guarded ==> !flag.value
      ensures !guarded ==> flag.value == old(flag.value)
    {
      if guarded {
        flag.value := false;
      }
    }
  }

  // ---------------------------------------------------------------------------
  // Parsing the time-zone services' responses

  /** The exceptions the parsing can throw. */
  datatype Error =
    | InvalidArgument          // std::invalid_argument from std::stoi
    | OutOfRange               // std::out_of_range from std::stoi or substr
    | LogicError(what: string)
    | RuntimeError(what: string)

  predicate IsSpace(c: char) {
    c == ' ' || c == '\t' || c == '\n' || c == '\U{000B}' || c == '\U{000C}' || c == '\r'
  }

  predicate IsDigit(c: char) {
    '0' <= c <= '9'
  }

  function DigitValue(c: char): (d: nat)
    requires IsDigit(c)
    ensures d < 10
  {
    c as int - '0' as int
  }

  predicate AllDigits(s: string) {
    forall c <- s :: IsDigit(c)
  }

  /** The value of a string of decimal digits. */
  function DigitsValue(s: string): nat
    requires AllDigits(s)
  {
    if |s| == 0 then 0 else DigitsValue(s[..|s| - 1]) * 10 + DigitValue(s[|s| - 1])
  }

  /** The end of the run of digits that starts at i. */
  function DigitsEnd(s: string, i: nat): (j: nat)
    requires i <= |s|
    ensures i <= j <= |s|
    ensures AllDigits(s[i..j])
    ensures j < |s| ==> !IsDigit(s[j])
    decreases |s| - i
  {
    if i == |s| || !IsDigit(s[i]) then i
    else
      var j := DigitsEnd(s, i + 1);
      assert s[i..j] == [s[i]] + s[i + 1..j];
      j
  }

  /** The end of the run of white space that starts at i. */
  function SpacesEnd(s: string, i: nat): (j: nat)
    requires i <= |s|
    ensures i <= j <= |s|
    ensures j < |s| ==> !IsSpace(s[j])
    decreases |s| - i
  {
    if i == |s| || !IsSpace(s[i]) then i else SpacesEnd(s, i + 1)
  }

  /**
   * `std::stoi(s)`: skips leading white space, reads an optional sign and
   * the longest run of decimal digits, and ignores what follows. Throws
   * `invalid_argument` when there are no digits and `out_of_range` when the
   * value does not fit an `int`.
   */
  function Stoi(s: string): (r: Result<int, Error>)
    ensures r.Success? ==> IsInt32(r.value)
    ensures r.Failure? ==> r.error == InvalidArgument || r.error == OutOfRange
  {
    var i := SpacesEnd(s, 0);
    var signed := i < |s| && (s[i] == '+' || s[i] == '-');
    var j := if signed then i + 1 else i;
    var d := DigitsEnd(s, j);
    if d == j then Failure(InvalidArgument)
    else
      var v: int := DigitsValue(s[j..d]);
      var x := if signed && s[i] == '-' then -v else v;
      if IsInt32(x) then Success(x) else Failure(OutOfRange)
  }

  /** Two decimal digits read as a number. */
  lemma StoiTwoDigits(a: char, b: char)
    requires IsDigit(a) && IsDigit(b)
    ensures Stoi([a, b]) == Success(10 * DigitValue(a) + DigitValue(b))
  {
    var s := [a, b];
    assert SpacesEnd(s, 0) == 0;
    assert DigitsEnd(s, 2) == 2;
    assert DigitsEnd(s, 0) == 2;
    assert s[0..2] == s;
    assert s[..1] == [a];
    assert [a][..0] == [];
    assert DigitsValue([a]) == DigitValue(a);
    assert DigitsValue(s) == 10 * DigitValue(a) + DigitValue(b);
  }

  /** `s.substr(pos, n)`: throws `out_of_range` when pos is past the end. */
  function Substr(s: string, pos: nat, n: nat): (r: Result<string, Error>)
    ensures r.Success? <==> pos <= |s|
    ensures r.Success? ==> r.value == s[pos..if pos + n <= |s| then pos + n else |s|]
  {
    if pos > |s| then Failure(OutOfRange)
    else Success(s[pos..if pos + n <= |s| then pos + n else |s|])
  }

  /**
   * The `utc_offset` field of ipapi.co: a sign character, two digits of
   * hours and two of minutes, as minutes east of UTC. Only '-' negates.
   */
  function ParseUtcOffset(hhmm: string): (r: Result<int, Error>)
    ensures |hhmm| == 0 ==> r == Failure(RuntimeError("Invalid UTC offset string."))
  {
    if |hhmm| == 0 then Failure(RuntimeError("Invalid UTC offset string."))
    else
      var sign := hhmm[0];
      var hh :- Substr(hhmm, 1, 2);
      var mm :- Substr(hhmm, 3, 2);
      var h :- Stoi(hh);
      var m :- Stoi(mm);
      var total := h * 60 + m;
      Success(if sign == '-' then -total else total)
  }

  /** "+HHMM" is 60·HH + MM minutes and "-HHMM" its negation. */
  lemma ParseUtcOffsetWellFormed(sign: char, h1: char, h2: char, m1: char, m2: char)
    requires sign == '+' || sign == '-'
    requires IsDigit(h1) && IsDigit(h2) && IsDigit(m1) && IsDigit(m2)
    ensures var minutes := 60 * (10 * DigitValue(h1) + DigitValue(h2)) + 10 * DigitValue(m1) + DigitValue(m2);
            ParseUtcOffset([sign, h1, h2, m1, m2]) == Success(if sign == '-' then -minutes else minutes)
  {
    var s := [sign, h1, h2, m1, m2];
    assert s[1..3] == [h1, h2];
    assert s[3..5] == [m1, m2];
    StoiTwoDigits(h1, h2);
    StoiTwoDigits(m1, m2);
  }

  const NumTzServices: nat := 3

  /** `get_tz_service_name`. */
  function TzServiceName(idx: int): (r: Result<string, Error>)
    ensures r.Success? <==> 0 <= idx < NumTzServices
  {
    if idx == 0 then Success("http://ip-api.com")
    else if idx == 1 then Success("https://ipwho.is")
    else if idx == 2 then Success("https://ipapi.co")
    else Failure(LogicError("Invalid tz service."))
  }

  /** The index of the first occurrence of x in xs. */
  function IndexOf(xs: seq<string>, x: string): (r: Option<nat>)
    ensures r.Some? ==> r.value < |xs| && xs[r.value] == x && forall k :: 0 <= k < r.value ==> xs[k] != x
    ensures r.None? ==> x !in xs
  {
    if |xs| == 0 then None
    else if xs[0] == x then Some(0)
    else match IndexOf(xs[1..], x)
      case None => None
      case Some(k) => Some(k + 1)
  }

  /**
   * `fetch_timezone` after the HTTP request: the time-zone name and the
   * offset in minutes, parsed from the response of service `idx`.
   * ip-api.com and ipwho.is answer "name,seconds" (the seconds are truncated
   * to whole minutes); ipapi.co answers a CSV header line and a value line,
   * with the offset as "+HHMM".
   */
  function ParseTimezone(idx: int, response: string): (r: Result<(string, int), Error>)
    ensures !(0 <= idx < NumTzServices) ==> r == Failure(LogicError("Invalid tz service."))
  {
    var service :- TzServiceName(idx);
    if idx == 0 || idx == 1 then
      var tokens := CsvTokens(response);
      if |tokens| != 2 then Failure(RuntimeError("Could not parse response from " + service))
      else
        var seconds :- Stoi(tokens[1]);
        Success((tokens[0], TruncDiv(seconds, 60)))
    else
      var lines := SplitSpec(response, "\r\n", 0);
      if |lines| != 2 then Failure(RuntimeError("Could not parse response from " + service))
      else
        var keys := CsvTokens(lines[0]);
        var values := CsvTokens(lines[1]);
        if |keys| != |values| then Failure(RuntimeError("Incoherent response from " + service))
        else
          var tzIdx := IndexOf(keys, "timezone");
          var offsetIdx := IndexOf(keys, "utc_offset");
          if tzIdx.None? || offsetIdx.None? then
            Failure(RuntimeError("Could not find timezone or utc_offset fields in response."))
          else
            var offset :- ParseUtcOffset(values[offsetIdx.value]);
            Success((values[tzIdx.value], offset))
  }

  /**
   * For ip-api.com and ipwho.is the offset is the whole minutes in the
   * reported seconds, rounded toward zero.
   */
  lemma SecondsServiceOffset(idx: int, name: string, secondsText: string, seconds: int)
    requires idx == 0 || idx == 1
    requires Stoi(secondsText) == Success(seconds)
    requires ',' !in name && !exists c <- name :: IsQuote(c)
    requires ',' !in secondsText && !exists c <- secondsText :: IsQuote(c)
    ensures var r := ParseTimezone(idx, name + "," + secondsText);
            r.Success? && r.value.0 == name &&
            Abs(r.value.1) * 60 <= Abs(seconds) < (Abs(r.value.1) + 1) * 60 &&
            (r.value.1 == 0 || (r.value.1 < 0 <==> seconds < 0))
  {
    var s := name + "," + secondsText;
    var n := |name|;
    forall k | 0 <= k < n
      ensures s[k] != ',' && !IsQuote(s[k])
    {
      assert s[k] == name[k];
      assert name[k] in name;
    }
    forall k | n + 1 <= k < |s|
      ensures s[k] != ',' && !IsQuote(s[k])
    {
      assert s[k] == secondsText[k - n - 1];
      assert secondsText[k - n - 1] in secondsText;
    }
    NoCommaScan(s, 0, n);
    assert s[n] == ',';
    assert NextComma(s, 0) == n;
    NoCommaScan(s, n + 1, |s|);
    assert CsvFrom(s, n + 1) == [s[n + 1..]];
    assert s[0..n] == name;
    assert s[n + 1..] == secondsText;
    assert CsvTokens(s) == [name, secondsText];
  }

  /** Without quotes or commas in s[i..e], the next comma is at e or later. */
  lemma {:induction false} NoCommaScan(s: string, i: nat, e: nat)
    requires i <= e <= |s|
    requires forall k :: i <= k < e ==> s[k] != ',' && !IsQuote(s[k])
    ensures NextComma(s, i) == NextComma(s, e)
    decreases e - i
  {
    if i < e {
      NoCommaScan(s, i + 1, e);
    }
  }
}
