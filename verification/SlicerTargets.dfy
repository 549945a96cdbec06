/** Which Python modules the slicers take for tests of a target module, and what that means for
    a phase. */
module SlicerTargets {
  import opened Counting
  import opened PyStrings
  import opened TestSlicer
  import opened Wrappers

  // ------------------------------------------------------------ which modules a target covers

  lemma {:induction false} ContainsIff(s: string, part: string)
    ensures Contains(s, part) <==> exists i: nat :: OccursAt(s, part, i)
  {
    StartsWithIff(s, part);
    if s != [] {
      ContainsIff(s[1..], part);
      forall i: nat ensures OccursAt(s[1..], part, i) <==> OccursAt(s, part, i + 1) {
        if i + 1 + |part| <= |s| {
          assert s[1..][i..i + |part|] == s[i + 1..i + 1 + |part|];
        }
      }
      if i: nat :| OccursAt(s, part, i) {
        assert i > 0 ==> OccursAt(s[1..], part, i - 1);
      }
    }
  }

  ghost predicate Around(s: string, before: string, part: string, rest: string) {
    s == before + part + rest
  }

  lemma AroundIff(s: string, part: string)
    ensures Contains(s, part) <==> exists before: string, rest: string :: Around(s, before, part, rest)
  {
    ContainsIff(s, part);
    if i: nat :| OccursAt(s, part, i) {
      assert s == s[..i] + s[i..i + |part|] + s[i + |part|..];
      assert Around(s, s[..i], part, s[i + |part|..]);
    }
    if before: string, rest: string :| Around(s, before, part, rest) {
      assert s[|before|..|before| + |part|] == part;
      assert OccursAt(s, part, |before|);
    }
  }

  /** Which modules a target covers, whatever the two are: those of a path with `.addons.` and
      the target in it, before a dot or at the end, and those of a path that begins with the
      target and a dot. */
  lemma CoversIff(pyModule: string, target: string)
    ensures InAddon(pyModule, target) <==>
      || (exists before: string, rest: string :: Around(pyModule, before, ".addons." + target + ".", rest))
      || (exists before: string :: Around(pyModule, before, ".addons." + target, ""))
      || (exists rest: string :: Around(pyModule, "", target + ".", rest))
  {
    AroundIff(pyModule, ".addons." + target + ".");
    EndsWithIff(pyModule, ".addons." + target);
    BeginsIff(pyModule, target + ".");
  }

  lemma EndsWithIff(s: string, end: string)
    ensures EndsWith(s, end) <==> exists before: string :: Around(s, before, end, "")
  {
    if EndsWith(s, end) {
      assert Around(s, s[..|s| - |end|], end, "");
    }
    if before: string :| Around(s, before, end, "") {
      assert s == before + end && s[|before|..] == end;
    }
  }

  lemma BeginsIff(s: string, prefix: string)
    ensures StartsWith(s, prefix) <==> exists rest: string :: Around(s, "", prefix, rest)
  {
    StartsWithIff(s, prefix);
    if OccursAt(s, prefix, 0) {
      assert Around(s, "", prefix, s[|prefix|..]);
    }
    if rest: string :| Around(s, "", prefix, rest) {
      assert s == prefix + rest && s[0..|prefix|] == prefix;
    }
  }

  const ADDONS: string := ".addons."

  /** `odoo.addons.` and the addon, and what comes behind it: nothing, or a dot and more. */
  function AddonPath(addon: string, tail: string): string {
    "odoo" + ADDONS + addon + tail
  }

  predicate SingleName(name: string) {
    name != [] && '.' !in name
  }

  predicate PlainTail(tail: string) {
    (tail == [] || tail[0] == '.') && !Contains(tail, ADDONS)
  }

  /** Before its tail such a path has two dots. */
  lemma TwoDots(addon: string, tail: string, i: nat)
    requires SingleName(addon) && i < 12 + |addon|
    ensures AddonPath(addon, tail)[i] == '.' <==> i == 4 || i == 11
  {
    if i < 12 {
      assert AddonPath(addon, tail)[..12] == "odoo" + ADDONS;
    } else {
      assert AddonPath(addon, tail)[i] == addon[i - 12];
    }
  }

  lemma AddonsOnce(addon: string, tail: string, i: nat)
    requires SingleName(addon) && addon != "addons" && PlainTail(tail)
    requires OccursAt(AddonPath(addon, tail), ADDONS, i)
    ensures i == 4
  {
    var path := AddonPath(addon, tail);
    assert path[i] == path[i..i + 8][0] == '.';
    if i < 12 + |addon| {
      TwoDots(addon, tail, i);
      if i == 11 {
        IsAddons(addon, tail);
      }
    } else {
      InTail(addon, tail, i);
    }
  }

  lemma InTail(addon: string, tail: string, i: nat)
    requires 12 + |addon| <= i && OccursAt(AddonPath(addon, tail), ADDONS, i)
    ensures Contains(tail, ADDONS)
  {
    var k := i - 12 - |addon|;
    assert tail[k..k + 8] == AddonPath(addon, tail)[i..i + 8];
    assert OccursAt(tail, ADDONS, k);
    ContainsIff(tail, ADDONS);
  }

  lemma IsAddons(addon: string, tail: string)
    requires SingleName(addon) && (tail == [] || tail[0] == '.')
    requires OccursAt(AddonPath(addon, tail), ADDONS, 11)
    ensures addon == "addons"
  {
    var path := AddonPath(addon, tail);
    Dots(addon, tail);
    assert path[12..19] == path[11..19][1..] && ADDONS[1..] == "addons" + ".";
    assert addon + tail == "addons" + ("." + path[19..]);
    SameName(addon, tail, "addons", "." + path[19..]);
  }

  lemma Dots(addon: string, tail: string)
    requires SingleName(addon)
    ensures
      var path := AddonPath(addon, tail);
      && path[4] == '.' && path[11] == '.' && path[12..] == addon + tail
      && (forall i :: 0 <= i < 4 ==> path[i] != '.') && path[..4] == "odoo"
  {
    assert AddonPath(addon, tail)[..12] == "odoo" + ADDONS;
  }

  lemma {:induction false} NameLength(name: string, tail: string)
    requires '.' !in name && (tail == [] || tail[0] == '.')
    ensures IndexOf(name + tail, '.') == |name|
  {
    if name == [] {
      assert name + tail == tail;
    } else {
      NameLength(name[1..], tail);
      assert (name + tail)[1..] == name[1..] + tail;
    }
  }

  /** Two single names with nothing or a dot behind them. */
  lemma SameName(a: string, x: string, b: string, y: string)
    requires SingleName(a) && SingleName(b) && a + x == b + y
    requires (x == [] || x[0] == '.') && (y == [] || y[0] == '.')
    ensures a == b && x == y
  {
    NameLength(a, x);
    NameLength(b, y);
    assert (a + x)[..|a|] == a && (b + y)[..|b|] == b && (a + x)[|a|..] == x && (b + y)[|b|..] == y;
  }

  lemma DottedAtFour(path: string, target: string) returns (rest: string)
    requires OccursAt(path, ADDONS + target + ".", 4)
    ensures 12 <= |path| && path[12..] == target + ("." + rest)
  {
    var part := ADDONS + target + ".";
    rest := path[4 + |part|..];
    assert part[8..] == target + "." && path[12..4 + |part|] == path[4..4 + |part|][8..];
    assert path[12..] == path[12..4 + |part|] + rest;
  }

  lemma ContainsName(addon: string, tail: string, target: string)
    requires SingleName(addon) && addon != "addons" && PlainTail(tail) && SingleName(target)
    requires Contains(AddonPath(addon, tail), ADDONS + target + ".")
    ensures target == addon
  {
    var path, part := AddonPath(addon, tail), ADDONS + target + ".";
    ContainsIff(path, part);
    var i: nat :| OccursAt(path, part, i);
    assert part == ADDONS + (target + ".");
    PartOccurs(path, ADDONS, target + ".", i);
    AddonsOnce(addon, tail, i);
    var rest := DottedAtFour(path, target);
    Dots(addon, tail);
    SameName(addon, tail, target, "." + rest);
  }

  lemma PartOccurs(s: string, first: string, second: string, i: nat)
    requires OccursAt(s, first + second, i)
    ensures OccursAt(s, first, i)
  {
    assert s[i..i + |first|] == s[i..i + |first + second|][..|first|];
  }

  lemma EndsWithName(addon: string, tail: string, target: string)
    requires SingleName(addon) && addon != "addons" && PlainTail(tail) && SingleName(target)
    requires EndsWith(AddonPath(addon, tail), ADDONS + target)
    ensures target == addon
  {
    var path, end := AddonPath(addon, tail), ADDONS + target;
    var i := |path| - |end|;
    assert path[i..i + 8] == path[i..][..8] && end[..8] == ADDONS;
    AddonsOnce(addon, tail, i);
    assert path[12..] == path[i..][8..] && end[8..] == target;
    Dots(addon, tail);
    assert addon + tail == target + [];
    SameName(addon, tail, target, []);
  }

  lemma BeginsWithName(addon: string, tail: string, target: string)
    requires SingleName(addon) && SingleName(target)
    ensures StartsWith(AddonPath(addon, tail), target + ".") <==> target == "odoo"
  {
    var path, prefix := AddonPath(addon, tail), target + ".";
    StartsWithIff(path, prefix);
    Dots(addon, tail);
    if OccursAt(path, prefix, 0) {
      BeginsWithIts(path, target);
    }
    if target == "odoo" {
      assert path[0..5] == path[..4] + [path[4]];
    }
  }

  lemma BeginsWithIts(path: string, target: string)
    requires |path| > 4 && path[..4] == "odoo" && path[4] == '.' && SingleName(target)
    requires OccursAt(path, target + ".", 0)
    ensures target == "odoo"
  {
    var rest := path[|target + "."|..];
    assert path == "odoo" + path[4..] && path == target + ("." + rest);
    SameName("odoo", path[4..], target, "." + rest);
  }

  lemma OwnPath(addon: string, tail: string)
    requires SingleName(addon) && (tail == [] || tail[0] == '.')
    ensures
      var path := AddonPath(addon, tail);
      EndsWith(path, ADDONS + addon) || Contains(path, ADDONS + addon + ".")
  {
    var path := AddonPath(addon, tail);
    if tail == [] {
      assert path[4..] == ADDONS + addon;
    } else {
      var part := ADDONS + addon + ".";
      assert path == "odoo" + part + tail[1..];
      assert OccursAt(path, part, 4);
      ContainsIff(path, part);
    }
  }

  /** A target covers the Python modules of the addon of its name and of no other one, unless it
      is named `odoo`, when it covers all. */
  lemma CoversItsAddon(addon: string, tail: string, target: string)
    requires SingleName(addon) && addon != "addons" && PlainTail(tail)
    requires SingleName(target)
    ensures InAddon("odoo.addons." + addon + tail, target) <==> target == addon || target == "odoo"
  {
    assert "odoo" + ADDONS == "odoo.addons.";
    assert ".addons." + target + "." == ADDONS + target + "." && ".addons." + target == ADDONS + target;
    OwnPath(addon, tail);
    BeginsWithName(addon, tail, target);
    if Contains(AddonPath(addon, tail), ADDONS + target + ".") {
      ContainsName(addon, tail, target);
    }
    if EndsWith(AddonPath(addon, tail), ADDONS + target) {
      EndsWithName(addon, tail, target);
    }
  }

  // ------------------------------------------------------------ a phase

  ghost predicate SingleNames(modules: seq<string>) {
    forall i :: 0 <= i < |modules| ==> CleanModule(modules[i]) && SingleName(modules[i]) && modules[i] != "odoo"
  }

  lemma PathIsTargeted(addon: string, tail: string, modules: seq<string>)
    requires SingleName(addon) && addon != "addons" && PlainTail(tail) && SingleNames(modules)
    ensures MatchesTarget("odoo.addons." + addon + tail, Targets(modules)) <==> modules == [] || addon in modules
  {
    var path := "odoo.addons." + addon + tail;
    TargetsAreModules(modules);
    forall target | target in modules ensures InAddon(path, target) <==> target == addon {
      CoversItsAddon(addon, tail, target);
    }
    if modules != [] {
      assert modules[0] in Targets(modules);
    }
  }

  /** The slicer takes a test of a covered module out of some runs. */
  predicate IsSlicedName(name: string, patched: Patched) {
    name != [] && (patched.Both? || (|name| >= 4 && name[..4] == "test"))
  }

  /** In a phase's own terms: the runs together load a test of one of its modules exactly as often
      as the unsliced loader finds it, and each run loads a test of any other addon; a phase
      without modules slices every addon's. Names that do not begin with `test` are sliced only
      when both loaders are patched. */
  lemma AddonTestOnce(hash: Hash, dbBase: string, modules: seq<string>, total: nat, patched: Patched,
      classes: seq<TestClass>, addon: string, tail: string, cls: string, name: string)
    requires 1 <= total && SingleNames(modules)
    requires SingleName(addon) && addon != "addons" && PlainTail(tail)
    requires name != "runTest"
    ensures
      var t := Test("odoo.addons." + addon + tail, cls, name);
      var found := multiset(AllTests(classes))[t];
      Sum(Loads(hash, dbBase, modules, total, patched, classes, t, total)) ==
        if (modules == [] || addon in modules) && IsSlicedName(name, patched) then found else total * found
  {
    var t := Test("odoo.addons." + addon + tail, cls, name);
    PathIsTargeted(addon, tail, modules);
    StartsWithIff(name, "test");
    assert |name| >= 4 ==> name[0..4] == name[..4];
    EveryTestOnce(hash, dbBase, modules, total, patched, classes, t);
  }

  // ------------------------------------------------------------ the requests

  /** Run `k` of a phase keeps exactly the tests of the hash that falls to it. */
  lemma HomeRun(hash: Hash, dbBase: string, modules: seq<string>, total: nat, k: nat, addon: string, tail: string,
      cls: string, name: string)
    requires k < total && SingleNames(modules) && addon in modules
    requires SingleName(addon) && addon != "addons" && PlainTail(tail)
    requires |name| >= 4 && name[..4] == "test"
    ensures
      var pyModule := "odoo.addons." + addon + tail;
      Kept(hash, SlicerOf(dbBase, modules, total, k), Both)(Test(pyModule, cls, name)) <==>
        k == hash(pyModule + "." + cls + "." + name) % total
  {
    var t := Test("odoo.addons." + addon + tail, cls, name);
    PathIsTargeted(addon, tail, modules);
    StartsWithIff(name, "test");
    assert name[0..4] == name[..4];
    KeptInOneSlice(hash, dbBase, modules, total, k, Both, t);
    AllFallToOne(hash(t.pyModule + "." + t.cls + "." + t.name));
  }

  lemma AllFallToOne(h: nat)
    ensures h % 1 == 0
  {}

  /** A slicer is installed when the request asks for at least two slices and names one of them. */
  lemma InstalledIff(env: SliceEnv)
    ensures ApplySlicer(env) != Off <==>
      && env.enabled && env.total.Some? && env.index.Some?
      && env.total.value >= 2 && 0 <= env.index.value < env.total.value
    ensures ApplySlicer(env) != Off ==>
      ApplySlicer(env) == Slice(env.total.value, env.index.value, ParseModules(env.modules))
  {}

  /** The guardrail keeps the runs within the connections the database has to spare, if more than
      one run is left, and takes away no run that had room. */
  lemma GuardrailFits(planned: int, room: int, connPerShard: int)
    requires connPerShard >= 1
    ensures
      var n := CapByGuardrail(planned, Some(room), connPerShard);
      && (n > 1 ==> n <= planned && n * connPerShard <= room)
      && (n < planned ==> (n + 1) * connPerShard > room)
  {
    Quotient(room, connPerShard);
    var n, q := CapByGuardrail(planned, Some(room), connPerShard), room / connPerShard;
    if n <= q {
      TimesMonotone(n, q, connPerShard);
    } else {
      TimesMonotone(q + 1, n + 1, connPerShard);
    }
    if q <= n {
      TimesMonotone(q + 1, n + 1, connPerShard);
    }
  }

  lemma Quotient(a: int, b: int)
    requires b >= 1
    ensures a / b * b <= a < (a / b + 1) * b
  {}

  lemma TimesMonotone(a: int, b: int, c: int)
    requires a <= b && c >= 0
    ensures a * c <= b * c
  {}

  /** No figure from the database, no cap; a connection count below one counts as one. */
  lemma GuardrailEdges(planned: int, room: int, connPerShard: int)
    ensures planned >= 1 ==> CapByGuardrail(planned, None, connPerShard) == planned
    ensures connPerShard < 1 ==>
      CapByGuardrail(planned, Some(room), connPerShard) == CapByGuardrail(planned, Some(room), 1)
  {}

  lemma {:induction false} Digits(n: nat)
    requires n < 1000
    ensures Decimal(n) ==
      if n < 10 then [Digit(n)]
      else if n < 100 then [Digit(n / 10), Digit(n % 10)]
      else [Digit(n / 10 / 10), Digit(n / 10 % 10), Digit(n % 10)]
  {
    if n >= 10 {
      Digits(n / 10);
    }
  }

  lemma {:induction false} ZerosInFront(s: string)
    requires 1 <= |s| <= 3
    ensures ZeroPad(s) == if |s| == 1 then ['0', '0'] + s else if |s| == 2 then ['0'] + s else s
    decreases 3 - |s|
  {
    if |s| < 3 {
      ZerosInFront(['0'] + s);
      assert ['0'] + (['0'] + s) == ['0', '0'] + s;
    }
  }

  /** The slice number stands in the name with three digits. */
  lemma SliceDatabase(dbBase: string, modules: seq<string>, total: nat, k: nat)
    requires k < 1000
    ensures SliceRequest(dbBase, modules, total, k).dbName ==
      dbBase + "_m" + [Digit(k / 10 / 10), Digit(k / 10 % 10), Digit(k % 10)]
  {
    Digits(k);
    ZerosInFront(Decimal(k));
    assert Digit(0) == '0';
  }
}
