/** Sequential MapReduce, src/main/mrsequential.go, and the word count application, src/mrapps/wc.go. */
module MapReduce {
  import opened Sorting
  import opened Strings

  datatype KeyValue = KeyValue(key: string, value: string)

  /** One line of the output file. */
  datatype Line = Line(key: string, output: string)

  /** Less of ByKey. */
  predicate KeyLess(a: KeyValue, b: KeyValue) { Less(a.key, b.key) }

  /** The values emitted for key k, in order. */
  function ValuesFor(kvs: seq<KeyValue>, k: string): seq<string> {
    if kvs == [] then []
    else if kvs[0].key == k then [kvs[0].value] + ValuesFor(kvs[1..], k)
    else ValuesFor(kvs[1..], k)
  }

  predicate Emits(kvs: seq<KeyValue>, k: string) {
    exists i :: 0 <= i < |kvs| && kvs[i].key == k
  }

  lemma {:induction false} ValuesForConcat(a: seq<KeyValue>, b: seq<KeyValue>, k: string)
    ensures ValuesFor(a + b, k) == ValuesFor(a, k) + ValuesFor(b, k)
  {
    if a == [] {
      assert a + b == b;
    } else {
      assert (a + b)[1..] == a[1..] + b;
      ValuesForConcat(a[1..], b, k);
    }
  }

  lemma {:induction false} ValuesForNone(a: seq<KeyValue>, k: string)
    requires forall i :: 0 <= i < |a| ==> a[i].key != k
    ensures ValuesFor(a, k) == []
  {
    if a != [] {
      ValuesForNone(a[1..], k);
    }
  }

  lemma {:induction false} ValuesForAll(a: seq<KeyValue>, k: string)
    requires forall i :: 0 <= i < |a| ==> a[i].key == k
    ensures |ValuesFor(a, k)| == |a| && forall i :: 0 <= i < |a| ==> ValuesFor(a, k)[i] == a[i].value
  {
    if a != [] {
      ValuesForAll(a[1..], k);
    }
  }

  lemma {:induction false} ValuesForCount(kvs: seq<KeyValue>, k: string, v: string)
    ensures multiset(ValuesFor(kvs, k))[v] == multiset(kvs)[KeyValue(k, v)]
  {
    if kvs != [] {
      assert kvs == [kvs[0]] + kvs[1..];
      ValuesForCount(kvs[1..], k, v);
    }
  }

  /** Reordering the pairs only reorders the values of each key. */
  lemma PermutedValues(a: seq<KeyValue>, b: seq<KeyValue>, k: string)
    requires multiset(a) == multiset(b)
    ensures multiset(ValuesFor(a, k)) == multiset(ValuesFor(b, k))
    ensures Emits(a, k) <==> Emits(b, k)
  {
    forall v
      ensures multiset(ValuesFor(a, k))[v] == multiset(ValuesFor(b, k))[v]
    {
      ValuesForCount(a, k, v);
      ValuesForCount(b, k, v);
    }
    if i :| 0 <= i < |a| && a[i].key == k {
      assert a[i] in multiset(b);
    }
    if i :| 0 <= i < |b| && b[i].key == k {
      assert b[i] in multiset(a);
    }
  }

  /** In sorted order, a key that differs from the one before it has not occurred before. */
  lemma BlockStarts(kvs: seq<KeyValue>, i: nat, p: nat)
    requires SortedBy(kvs, KeyLess) && p < i < |kvs| && kvs[i - 1].key != kvs[i].key
    ensures Less(kvs[p].key, kvs[i].key)
  {
    assert !KeyLess(kvs[i], kvs[p]) && !KeyLess(kvs[i], kvs[i - 1]);
    Trichotomy(kvs[p].key, kvs[i].key);
    Trichotomy(kvs[i - 1].key, kvs[i].key);
    if p < i - 1 {
      assert !KeyLess(kvs[i - 1], kvs[p]);
    }
  }

  /** In sorted order, equal keys are adjacent. */
  lemma BlockStandsAlone(kvs: seq<KeyValue>, i: nat, j: nat, p: nat)
    requires SortedBy(kvs, KeyLess) && i < j <= |kvs| && p < |kvs| && !(i <= p < j)
    requires i > 0 ==> kvs[i - 1].key != kvs[i].key
    requires j < |kvs| ==> kvs[j].key != kvs[i].key && kvs[j - 1].key == kvs[i].key
    ensures kvs[p].key != kvs[i].key
  {
    if p < i {
      BlockStarts(kvs, i, p);
    } else {
      BlockStarts(kvs, j, i);
      if p > j {
        assert !KeyLess(kvs[p], kvs[j]);
      }
    }
    Trichotomy(kvs[i].key, kvs[i].key);
  }

  lemma ValuesForMiddle(a: seq<KeyValue>, b: seq<KeyValue>, c: seq<KeyValue>, k: string)
    requires forall i :: 0 <= i < |a| ==> a[i].key != k
    requires forall i :: 0 <= i < |c| ==> c[i].key != k
    ensures ValuesFor(a + b + c, k) == ValuesFor(b, k)
  {
    ValuesForNone(a, k);
    ValuesForNone(c, k);
    ValuesForConcat(a + b, c, k);
    ValuesForConcat(a, b, k);
  }

  /** The block i to j of a key holds all its values. */
  lemma BlockIsComplete(kvs: seq<KeyValue>, i: nat, j: nat, k: string)
    requires i <= j <= |kvs|
    requires forall p :: 0 <= p < |kvs| && !(i <= p < j) ==> kvs[p].key != k
    ensures ValuesFor(kvs, k) == ValuesFor(kvs[i..j], k)
  {
    ValuesForMiddle(kvs[..i], kvs[i..j], kvs[j..], k);
    assert kvs[..i] + kvs[i..j] + kvs[j..] == kvs;
  }

  /** The lines are in increasing key order, one for each key met so far, each reduced from all its values. */
  ghost predicate Reduced(kvs: seq<KeyValue>, n: nat, reducef: (string, seq<string>) -> string, lines: seq<Line>)
    requires n <= |kvs|
  {
    && (forall a, b :: 0 <= a < b < |lines| ==> Less(lines[a].key, lines[b].key))
    && (forall a :: 0 <= a < |lines| ==> lines[a].output == reducef(lines[a].key, ValuesFor(kvs, lines[a].key)))
    && (forall k :: Shows(lines, k) <==> Emits(kvs[..n], k))
  }

  lemma ReducedNext(kvs: seq<KeyValue>, i: nat, j: nat, reducef: (string, seq<string>) -> string,
                    lines: seq<Line>, line: Line)
    requires i < j <= |kvs| && SortedBy(kvs, KeyLess) && Reduced(kvs, i, reducef, lines)
    requires forall p :: i <= p < j ==> kvs[p].key == line.key
    requires i > 0 ==> kvs[i - 1].key != line.key
    requires line.output == reducef(line.key, ValuesFor(kvs, line.key))
    ensures Reduced(kvs, j, reducef, lines + [line])
  {
    forall a | 0 <= a < |lines|
      ensures Less(lines[a].key, line.key)
    {
      assert Shows(lines, lines[a].key);
      EmittedEarlierIsLess(kvs, i, lines[a].key);
    }
    forall k
      ensures Shows(lines + [line], k) <==> Emits(kvs[..j], k)
    {
      ShowsNext(lines, line, k);
      EmitsBlock(kvs, i, j, line.key, k);
    }
  }

  lemma EmittedEarlierIsLess(kvs: seq<KeyValue>, i: nat, k: string)
    requires SortedBy(kvs, KeyLess) && i < |kvs| && Emits(kvs[..i], k)
    requires i > 0 ==> kvs[i - 1].key != kvs[i].key
    ensures Less(k, kvs[i].key)
  {
    var p :| 0 <= p < |kvs[..i]| && kvs[..i][p].key == k;
    BlockStarts(kvs, i, p);
  }

  lemma EmitsBlock(kvs: seq<KeyValue>, i: nat, j: nat, key: string, k: string)
    requires i < j <= |kvs| && forall p :: i <= p < j ==> kvs[p].key == key
    ensures Emits(kvs[..j], k) <==> Emits(kvs[..i], k) || k == key
  {
    assert kvs[..j] == kvs[..i] + kvs[i..j];
    EmitsConcat(kvs[..i], kvs[i..j], k);
    assert kvs[i..j][0].key == key;
  }

  lemma EmitsConcat(a: seq<KeyValue>, b: seq<KeyValue>, k: string)
    ensures Emits(a + b, k) <==> Emits(a, k) || Emits(b, k)
  {
    if i :| 0 <= i < |a| && a[i].key == k {
      assert (a + b)[i].key == k;
    }
    if i :| 0 <= i < |b| && b[i].key == k {
      assert (a + b)[|a| + i].key == k;
    }
  }

  predicate Shows(lines: seq<Line>, k: string) {
    exists a :: 0 <= a < |lines| && lines[a].key == k
  }

  lemma ShowsNext(lines: seq<Line>, line: Line, k: string)
    ensures Shows(lines + [line], k) <==> Shows(lines, k) || k == line.key
  {
    if a :| 0 <= a < |lines| && lines[a].key == k {
      assert (lines + [line])[a].key == k;
    }
    assert (lines + [line])[|lines|] == line;
  }

  /** The grouping loop of main. */
  method ReduceGroups(kvs: seq<KeyValue>, reducef: (string, seq<string>) -> string) returns (lines: seq<Line>)
    requires SortedBy(kvs, KeyLess)
    ensures Reduced(kvs, |kvs|, reducef, lines)
  {
    lines := [];
    var i := 0;
    while i < |kvs|
      invariant 0 <= i <= |kvs| && Reduced(kvs, i, reducef, lines)
      invariant 0 < i < |kvs| ==> kvs[i - 1].key != kvs[i].key
    {
      var j := i + 1;
      while j < |kvs| && kvs[j].key == kvs[i].key
        invariant i < j <= |kvs| && forall p :: i <= p < j ==> kvs[p].key == kvs[i].key
      {
        j := j + 1;
      }
      var values: seq<string> := [];
      for k := i to j
        invariant |values| == k - i && forall p :: 0 <= p < k - i ==> values[p] == kvs[i + p].value
      {
        values := values + [kvs[k].value];
      }
      forall p | 0 <= p < |kvs| && !(i <= p < j)
        ensures kvs[p].key != kvs[i].key
      {
        BlockStandsAlone(kvs, i, j, p);
      }
      BlockIsComplete(kvs, i, j, kvs[i].key);
      ValuesForAll(kvs[i..j], kvs[i].key);
      assert values == ValuesFor(kvs, kvs[i].key);
      var output := reducef(kvs[i].key, values);
      ReducedNext(kvs, i, j, reducef, lines, Line(kvs[i].key, output));
      lines := lines + [Line(kvs[i].key, output)];
      i := j;
    }
  }

  /** An input file. */
  datatype File = File(name: string, contents: string)

  /** Everything that mapf emits for the files, in order. */
  function Emitted(files: seq<File>, mapf: (string, string) -> seq<KeyValue>): seq<KeyValue> {
    if files == [] then []
    else Emitted(files[..|files| - 1], mapf) + mapf(files[|files| - 1].name, files[|files| - 1].contents)
  }

  predicate Reorders(a: seq<string>, b: seq<string>) {
    multiset(a) == multiset(b)
  }

  /** The line is reduced from some ordering of exactly the values emitted for its key. */
  ghost predicate ReducesAll(line: Line, kvs: seq<KeyValue>, reducef: (string, seq<string>) -> string) {
    exists values :: Reorders(values, ValuesFor(kvs, line.key)) && line.output == reducef(line.key, values)
  }

  /**
    main: each emitted key is reduced exactly once, in increasing key order, on some ordering of
    exactly the values emitted for it; sort.Sort decides which.
  */
  method Run(files: seq<File>, mapf: (string, string) -> seq<KeyValue>, reducef: (string, seq<string>) -> string)
    returns (lines: seq<Line>)
    ensures forall a, b :: 0 <= a < b < |lines| ==> Less(lines[a].key, lines[b].key)
    ensures forall k :: Shows(lines, k) <==> Emits(Emitted(files, mapf), k)
    ensures forall a :: 0 <= a < |lines| ==> ReducesAll(lines[a], Emitted(files, mapf), reducef)
  {
    var intermediate: seq<KeyValue> := [];
    for n := 0 to |files|
      invariant intermediate == Emitted(files[..n], mapf)
    {
      assert files[..n + 1][..n] == files[..n];
      var kva := mapf(files[n].name, files[n].contents);
      intermediate := intermediate + kva;
    }
    assert files[..|files|] == files;
    LessOrders();
    var sorted := Sort(intermediate, KeyLess);
    lines := ReduceGroups(sorted, reducef);
    assert sorted[..|sorted|] == sorted;
    forall k
      ensures Emits(sorted, k) <==> Emits(intermediate, k)
    {
      PermutedValues(sorted, intermediate, k);
    }
    forall a | 0 <= a < |lines|
      ensures ReducesAll(lines[a], intermediate, reducef)
    {
      PermutedValues(sorted, intermediate, lines[a].key);
      assert Reorders(ValuesFor(sorted, lines[a].key), ValuesFor(intermediate, lines[a].key));
    }
  }

  // ---- Word count ----------------------------------------------------------------------

  /** What Map of wc emits, for a splitting of contents into words. */
  function WcMap(words: seq<string>): seq<KeyValue> {
    seq(|words|, i requires 0 <= i < |words| => KeyValue(words[i], "1"))
  }

  /** Map of wc. */
  method MapWords(words: seq<string>) returns (kva: seq<KeyValue>)
    ensures kva == WcMap(words)
  {
    kva := [];
    for n := 0 to |words|
      invariant kva == WcMap(words)[..n]
    {
      kva := kva + [KeyValue(words[n], "1")];
    }
  }

  function Digit(d: nat): (c: char)
    requires d < 10
    ensures '0' <= c <= '9' && c as int - '0' as int == d
  {
    '0' + d as char
  }

  /** strconv.Itoa for a length. */
  function Itoa(n: nat): string {
    if n < 10 then [Digit(n)] else Itoa(n / 10) + [Digit(n % 10)]
  }

  /** The number that a string of decimal digits stands for. */
  function Number(s: string): int {
    if s == [] then 0 else 10 * Number(s[..|s| - 1]) + (s[|s| - 1] as int - '0' as int)
  }

  lemma NumberAppend(s: string, c: char)
    ensures Number(s + [c]) == 10 * Number(s) + (c as int - '0' as int)
  {
    assert (s + [c])[..|s|] == s;
  }

  /** Itoa writes the number in decimal digits without leading zeros. */
  lemma {:induction false} ItoaReads(n: nat)
    ensures Number(Itoa(n)) == n
    ensures Itoa(n) != [] && forall i :: 0 <= i < |Itoa(n)| ==> '0' <= Itoa(n)[i] <= '9'
    ensures Itoa(n)[0] == '0' ==> n == 0 && |Itoa(n)| == 1
  {
    if n >= 10 {
      ItoaReads(n / 10);
      NumberAppend(Itoa(n / 10), Digit(n % 10));
    } else {
      NumberAppend([], Digit(n));
      assert [] + [Digit(n)] == Itoa(n);
    }
  }

  /** Reduce of wc. */
  function WcReduce(key: string, values: seq<string>): string {
    Itoa(|values|)
  }

  /** How often w occurs in all files, which split into words by fields. */
  function Occurrences(files: seq<File>, fields: string -> seq<string>, w: string): nat {
    if files == [] then 0
    else Occurrences(files[..|files| - 1], fields, w) + multiset(fields(files[|files| - 1].contents))[w]
  }

  /** Map emits a "1" for each occurrence of a word and nothing else. */
  lemma {:induction false} WcMapCounts(words: seq<string>, w: string)
    ensures ValuesFor(WcMap(words), w) == seq(multiset(words)[w], _ => "1")
  {
    if words != [] {
      assert words == [words[0]] + words[1..];
      assert WcMap(words)[1..] == WcMap(words[1..]);
      WcMapCounts(words[1..], w);
    }
  }

  /** wc emits one value for w per occurrence of w. */
  lemma {:induction false} EmittedCounts(files: seq<File>, fields: string -> seq<string>, w: string)
    ensures |ValuesFor(Emitted(files, (name, contents) => WcMap(fields(contents))), w)| == Occurrences(files, fields, w)
    decreases |files|
  {
    if files != [] {
      var mapf := (name, contents) => WcMap(fields(contents));
      var last := files[|files| - 1];
      EmittedCounts(files[..|files| - 1], fields, w);
      WcMapCounts(fields(last.contents), w);
      ValuesForConcat(Emitted(files[..|files| - 1], mapf), WcMap(fields(last.contents)), w);
    }
  }

  /** Word count: the line of a word shows the number of its occurrences over all files. */
  method WordCount(files: seq<File>, fields: string -> seq<string>) returns (lines: seq<Line>)
    ensures forall a, b :: 0 <= a < b < |lines| ==> Less(lines[a].key, lines[b].key)
    ensures forall a :: 0 <= a < |lines| ==> lines[a].output == Itoa(Occurrences(files, fields, lines[a].key))
    ensures forall a :: 0 <= a < |lines| ==> Number(lines[a].output) == Occurrences(files, fields, lines[a].key)
    ensures forall w :: Shows(lines, w) <==> Occurrences(files, fields, w) > 0
  {
    var mapf := (name, contents) => WcMap(fields(contents));
    lines := Run(files, mapf, WcReduce);
    forall a | 0 <= a < |lines|
      ensures lines[a].output == Itoa(Occurrences(files, fields, lines[a].key))
      ensures Number(lines[a].output) == Occurrences(files, fields, lines[a].key)
    {
      ItoaReads(Occurrences(files, fields, lines[a].key));
      EmittedCounts(files, fields, lines[a].key);
      var values :| Reorders(values, ValuesFor(Emitted(files, mapf), lines[a].key))
        && lines[a].output == WcReduce(lines[a].key, values);
      assert |values| == |multiset(values)|;
    }
    forall w
      ensures Emits(Emitted(files, mapf), w) <==> Occurrences(files, fields, w) > 0
    {
      EmittedCounts(files, fields, w);
      EmitsValues(Emitted(files, mapf), w);
    }
  }

  lemma {:induction false} EmitsValues(kvs: seq<KeyValue>, k: string)
    ensures Emits(kvs, k) <==> ValuesFor(kvs, k) != []
  {
    if kvs != [] {
      EmitsValues(kvs[1..], k);
      if i :| 0 <= i < |kvs[1..]| && kvs[1..][i].key == k {
        assert kvs[i + 1].key == k;
      }
      if i :| 0 <= i < |kvs| && kvs[i].key == k && i > 0 {
        assert kvs[1..][i - 1].key == k;
      }
    }
  }
}
