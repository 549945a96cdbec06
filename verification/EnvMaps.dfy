/** Environment variables as a Python `dict`: entries in insertion order, one per key. */
module EnvMaps {
  import opened Counting
  import opened Wrappers

  datatype Entry = Entry(key: string, value: string)

  type Line = string

  ghost predicate Distinct(m: seq<Entry>) {
    forall i, j :: 0 <= i < j < |m| ==> m[i].key != m[j].key
  }

  /** The first position of a key from `i` on, or the length when there is none. */
  function FindFrom(m: seq<Entry>, key: string, i: nat): (at: nat)
    requires i <= |m|
    ensures i <= at <= |m| && (at < |m| ==> m[at].key == key)
    decreases |m| - i
  {
    if i == |m| || m[i].key == key then i else FindFrom(m, key, i + 1)
  }

  function Find(m: seq<Entry>, key: string): nat {
    FindFrom(m, key, 0)
  }

  lemma {:induction false} FoundFirst(m: seq<Entry>, key: string, i: nat, j: nat)
    requires i <= |m| && i <= j < FindFrom(m, key, i)
    ensures m[j].key != key
    decreases |m| - i
  {
    if i < j {
      FoundFirst(m, key, i + 1, j);
    }
  }

  lemma {:induction false} FindFromIs(m: seq<Entry>, key: string, i: nat, at: nat)
    requires i <= at <= |m| && (at < |m| ==> m[at].key == key)
    requires forall j :: i <= j < at ==> m[j].key != key
    ensures FindFrom(m, key, i) == at
    decreases at - i
  {
    if i < at {
      FindFromIs(m, key, i + 1, at);
    }
  }

  /** Where a key is: at the only position that has it. */
  lemma FindIs(m: seq<Entry>, key: string, at: nat)
    requires at <= |m| && (at < |m| ==> m[at].key == key)
    requires forall j :: 0 <= j < at ==> m[j].key != key
    ensures Find(m, key) == at && Get(m, key) == if at < |m| then Some(m[at].value) else None
  {
    FindFromIs(m, key, 0, at);
  }

  lemma FindOwn(m: seq<Entry>, i: nat)
    requires Distinct(m) && i < |m|
    ensures Find(m, m[i].key) == i && Get(m, m[i].key) == Some(m[i].value)
  {
    FindIs(m, m[i].key, i);
  }

  lemma HasElement(m: seq<Entry>, i: nat)
    requires i < |m|
    ensures Has(m, m[i].key)
  {
    if !Has(m, m[i].key) {
      FoundFirst(m, m[i].key, 0, i);
    }
  }

  /** `m.get(key)`. */
  function Get(m: seq<Entry>, key: string): Option<string> {
    var i := Find(m, key);
    if i < |m| then Some(m[i].value) else None
  }

  predicate Has(m: seq<Entry>, key: string) {
    Get(m, key).Some?
  }

  /** `m[key] = value`: in place when the key is there, at the end when it is new. */
  function Put(m: seq<Entry>, e: Entry): (r: seq<Entry>)
    ensures |m| <= |r| <= |m| + 1
  {
    var i := Find(m, e.key);
    if i < |m| then m[i := e] else m + [e]
  }

  lemma PutDistinct(m: seq<Entry>, e: Entry)
    requires Distinct(m)
    ensures Distinct(Put(m, e))
  {
    if !Has(m, e.key) {
      forall i | 0 <= i < |m| ensures m[i].key != e.key {
        FoundFirst(m, e.key, 0, i);
      }
    }
  }

  /** `m.pop(key, None)`. */
  function Remove(m: seq<Entry>, key: string): seq<Entry> {
    var i := Find(m, key);
    if i < |m| then m[..i] + m[i + 1..] else m
  }

  lemma GetPut(m: seq<Entry>, e: Entry, key: string)
    requires Distinct(m)
    ensures Get(Put(m, e), key) == if key == e.key then Some(e.value) else Get(m, key)
  {
    var r, was := Put(m, e), Find(m, key);
    PutDistinct(m, e);
    if key == e.key {
      FindOwn(r, was);
    } else if was < |m| {
      FindOwn(r, was);
    } else {
      forall j | 0 <= j < |m| ensures m[j].key != key {
        FoundFirst(m, key, 0, j);
      }
      FindIs(r, key, |r|);
    }
  }

  /** Reading a file: what each line contributes is put into the dictionary in turn. */
  function Collect(parse: Line -> Option<Entry>, lines: seq<Line>): seq<Entry> {
    if lines == [] then []
    else Contribute(Collect(parse, lines[..|lines| - 1]), parse(lines[|lines| - 1]))
  }

  function Contribute(m: seq<Entry>, contribution: Option<Entry>): seq<Entry> {
    if contribution.Some? then Put(m, contribution.value) else m
  }

  lemma CollectNext(parse: Line -> Option<Entry>, lines: seq<Line>, i: nat)
    requires i < |lines|
    ensures Collect(parse, lines[..i + 1]) == Contribute(Collect(parse, lines[..i]), parse(lines[i]))
  {
    assert lines[..i + 1][..i] == lines[..i];
  }

  lemma {:induction false} CollectBounds(parse: Line -> Option<Entry>, lines: seq<Line>)
    ensures |Collect(parse, lines)| <= |lines| && Distinct(Collect(parse, lines))
  {
    if lines != [] {
      var e := parse(lines[|lines| - 1]);
      CollectBounds(parse, lines[..|lines| - 1]);
      if e.Some? {
        PutDistinct(Collect(parse, lines[..|lines| - 1]), e.value);
      }
    }
  }

  /** Every entry comes from some line. */
  lemma {:induction false} CollectSource(parse: Line -> Option<Entry>, lines: seq<Line>, i: nat) returns (k: nat)
    requires i < |Collect(parse, lines)|
    ensures k < |lines| && parse(lines[k]) == Some(Collect(parse, lines)[i])
  {
    var last := |lines| - 1;
    var before, now := Collect(parse, lines[..last]), Collect(parse, lines);
    if i < |before| && now[i] == before[i] {
      k := CollectSource(parse, lines[..last], i);
    } else {
      k := last;
    }
  }

  /** When no line is lost, entry and line correspond one to one. */
  lemma {:induction false} FullCollect(parse: Line -> Option<Entry>, lines: seq<Line>, i: nat)
    requires |Collect(parse, lines)| == |lines| && i < |lines|
    ensures parse(lines[i]) == Some(Collect(parse, lines)[i])
  {
    var last := |lines| - 1;
    CollectBounds(parse, lines[..last]);
    var before := Collect(parse, lines[..last]);
    var contribution := parse(lines[last]);
    assert contribution.Some? && |before| == last && Collect(parse, lines) == before + [contribution.value];
    if i < last {
      FullCollect(parse, lines[..last], i);
    }
  }

  /** The lines that stand for exactly the given entries. */
  ghost predicate Reads(parse: Line -> Option<Entry>, lines: seq<Line>, m: seq<Entry>) {
    |lines| == |m| && forall i :: 0 <= i < |m| ==> parse(lines[i]) == Some(m[i])
  }

  lemma PutLast(m: seq<Entry>)
    requires Distinct(m) && m != []
    ensures Put(m[..|m| - 1], m[|m| - 1]) == m
  {
    var last := |m| - 1;
    FindIs(m[..last], m[last].key, last);
    assert m == m[..last] + [m[last]];
  }

  lemma {:induction false} CollectReads(parse: Line -> Option<Entry>, lines: seq<Line>, m: seq<Entry>)
    requires Distinct(m) && Reads(parse, lines, m)
    ensures Collect(parse, lines) == m
  {
    if m != [] {
      var last := |m| - 1;
      CollectReads(parse, lines[..last], m[..last]);
      PutLast(m);
    }
  }

  /** A dictionary is read back from as many lines if and only if each line gives its entry. */
  lemma CollectIsIdentityIff(parse: Line -> Option<Entry>, lines: seq<Line>, m: seq<Entry>)
    requires Distinct(m) && |lines| == |m|
    ensures Collect(parse, lines) == m <==> Reads(parse, lines, m)
  {
    if Reads(parse, lines, m) {
      CollectReads(parse, lines, m);
    }
    if Collect(parse, lines) == m {
      forall i | 0 <= i < |m| ensures parse(lines[i]) == Some(m[i]) {
        FullCollect(parse, lines, i);
      }
    }
  }

  /** The value the last line with a given name gives it. */
  function LastValue(parse: Line -> Option<Entry>, lines: seq<Line>, key: string): Option<string> {
    if lines == [] then None
    else
      var e := parse(lines[|lines| - 1]);
      if e.Some? && e.value.key == key then Some(e.value.value) else LastValue(parse, lines[..|lines| - 1], key)
  }

  /** Of several lines with the same name the last one decides. */
  lemma {:induction false} LastLineWins(parse: Line -> Option<Entry>, lines: seq<Line>, key: string)
    ensures Get(Collect(parse, lines), key) == LastValue(parse, lines, key)
  {
    if lines != [] {
      var last := |lines| - 1;
      var e := parse(lines[last]);
      LastLineWins(parse, lines[..last], key);
      CollectBounds(parse, lines[..last]);
      if e.Some? {
        GetPut(Collect(parse, lines[..last]), e.value, key);
      }
    }
  }

  // ------------------------------------------------------------ the same dictionary in another order

  lemma PermutedIsDistinct(m: seq<Entry>, n: seq<Entry>)
    requires Distinct(m) && multiset(m) == multiset(n)
    ensures Distinct(n)
  {
    PermutedNoDuplicates(m, n);
    forall i, j | 0 <= i < j < |n| ensures n[i].key != n[j].key {
      assert n[i] in multiset(m) && n[j] in multiset(m);
    }
  }

  lemma PermutedGet(m: seq<Entry>, n: seq<Entry>, key: string)
    requires Distinct(m) && multiset(m) == multiset(n)
    ensures Get(n, key) == Get(m, key)
  {
    PermutedIsDistinct(m, n);
    if Has(m, key) {
      assert m[Find(m, key)] in multiset(n);
      var j :| 0 <= j < |n| && n[j] == m[Find(m, key)];
      FindOwn(n, j);
    } else if Has(n, key) {
      assert n[Find(n, key)] in multiset(m);
      var i :| 0 <= i < |m| && m[i] == n[Find(n, key)];
      FoundFirst(m, key, 0, i);
    }
  }
}
