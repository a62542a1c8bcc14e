/** The options and regions of tuna/stats/utils.py: how statistics under the
    stationary hypothesis are computed (`CompuParams`), and the named time
    windows they are computed on (`Regions`). */
module StatsOptions {
  import opened Wrappers
  import opened Text

  // ---------------------------------------------------------------------------
  // Computation options

  /** An argument as the `isinstance` checks see it. */
  datatype Arg = Str(s: string) | Bool(b: bool) | Other

  /** Each `raise CompuParamsError(...)`, told apart by its message, and the
      `IndexError` of `code[0]` on an empty code. */
  datatype ParamsError =
    | AdjustMeanInvalid
    | DisjointNotBool
    | CodeNotString
    | CodeEmpty
    | CodeAdjustInvalid
    | CodeInvalid

  predicate AdjustMeanName(s: string) {
    s == "global" || s == "local"
  }

  /** What `load_from_string_code` leaves in `adjust_mean` and `disjoint`,
      and the error it raises, if any. A wrong second character is found
      after `adjust_mean` was set and `disjoint` cleared; characters after
      the second are not looked at. */
  function Loaded(adjustMean: string, disjoint: bool, code: Arg): (r: (string, bool, Option<ParamsError>))
    ensures AdjustMeanName(adjustMean) ==> AdjustMeanName(r.0)
  {
    if !code.Str? then (adjustMean, disjoint, Some(CodeNotString))
    else if code.s == "" then (adjustMean, disjoint, Some(CodeEmpty))
    else if code.s[0] != 'g' && code.s[0] != 'l' then (adjustMean, disjoint, Some(CodeAdjustInvalid))
    else
      var am := if code.s[0] == 'g' then "global" else "local";
      if |code.s| > 1 && code.s[1] != 'd' then (am, false, Some(CodeInvalid))
      else (am, |code.s| > 1, None)
  }

  /** A code is accepted exactly when it is a string starting with 'g' or
      'l', whose second character, if any, is 'd'; it then sets the options
      its first two characters name, and only an accepted code or one
      failing on its second character changes anything. */
  lemma LoadedAccepts(adjustMean: string, disjoint: bool, code: Arg)
    ensures var r := Loaded(adjustMean, disjoint, code);
            && (r.2.None? <==>
                  code.Str? && |code.s| > 0 && (code.s[0] == 'g' || code.s[0] == 'l')
                  && (|code.s| > 1 ==> code.s[1] == 'd'))
            && (r.2.None? ==> r.0[0] == code.s[0] && AdjustMeanName(r.0) && r.1 == (|code.s| > 1))
            && (r.2 != Some(CodeInvalid) && r.2.Some? ==> r.0 == adjustMean && r.1 == disjoint)
  {
  }

  class CompuParams {
    var adjustMean: string
    var disjoint: bool

    ghost predicate Valid()
      reads this
    {
      AdjustMeanName(adjustMean)
    }

    constructor(adjustMean: string, disjoint: bool)
      requires AdjustMeanName(adjustMean)
      ensures Valid() && this.adjustMean == adjustMean && this.disjoint == disjoint
    {
      this.adjustMean := adjustMean;
      this.disjoint := disjoint;
    }

    /** `as_string_code`: the first letter of the mean adjustment, then 'd'
        when the time sets are disjoint. */
    function AsStringCode(): (code: string)
      reads this
      requires Valid()
      ensures |code| == (if disjoint then 2 else 1)
      ensures code[0] == adjustMean[0] && (disjoint ==> code[1] == 'd')
    {
      [adjustMean[0]] + (if disjoint then "d" else "")
    }

    /** `load_from_string_code`. */
    method LoadFromStringCode(code: Arg) returns (err: Option<ParamsError>)
      modifies this
      ensures (adjustMean, disjoint, err) == Loaded(old(adjustMean), old(disjoint), code)
      ensures old(Valid()) ==> Valid()
    {
      if !code.Str? {
        return Some(CodeNotString);
      }
      if code.s == "" {
        return Some(CodeEmpty);
      }
      if code.s[0] == 'g' {
        adjustMean := "global";
      } else if code.s[0] == 'l' {
        adjustMean := "local";
      } else {
        return Some(CodeAdjustInvalid);
      }
      disjoint := false;
      err := None;
      if |code.s| > 1 {
        if code.s[1] == 'd' {
          disjoint := true;
        } else {
          err := Some(CodeInvalid);
        }
      }
    }
  }

  /** `CompuParams(adjust_mean, disjoint)`: the mean adjustment is checked
      first, then the type of `disjoint`. */
  method NewCompuParams(adjustMean: string, disjoint: Arg) returns (r: Result<CompuParams, ParamsError>)
    ensures !AdjustMeanName(adjustMean) ==> r == Err(AdjustMeanInvalid)
    ensures AdjustMeanName(adjustMean) && !disjoint.Bool? ==> r == Err(DisjointNotBool)
    ensures AdjustMeanName(adjustMean) && disjoint.Bool? ==>
              && r.Ok? && fresh(r.value) && r.value.Valid()
              && r.value.adjustMean == adjustMean && r.value.disjoint == disjoint.b
  {
    if !AdjustMeanName(adjustMean) {
      return Err(AdjustMeanInvalid);
    }
    if !disjoint.Bool? {
      return Err(DisjointNotBool);
    }
    var p := new CompuParams(adjustMean, disjoint.b);
    return Ok(p);
  }

  /** Loading the code of a set of options gives back those options, without
      error, whatever the options were before. */
  lemma CodeRoundTrip(p: CompuParams, adjustMean: string, disjoint: bool)
    requires p.Valid()
    ensures Loaded(adjustMean, disjoint, Str(p.AsStringCode())) == (p.adjustMean, p.disjoint, None)
  {
    var code := p.AsStringCode();
    assert p.adjustMean[0] == 'g' <==> p.adjustMean == "global";
  }

  // ---------------------------------------------------------------------------
  // Regions

  /** A region: its name and its time bounds (`Region.as_dict`). */
  datatype Region = Region(name: Option<string>, tmin: Option<real>, tmax: Option<real>)

  predicate SameBounds(r: Region, s: Region) {
    r.tmin == s.tmin && r.tmax == s.tmax
  }

  /** Every stored region carries the name it is stored under, and no two
      stored regions have the same bounds: what `add` keeps. */
  ghost predicate Consistent(regs: map<string, Region>) {
    && (forall k :: k in regs ==> regs[k].name == Some(k))
    && (forall k, l :: k in regs && l in regs && k != l ==> !SameBounds(regs[k], regs[l]))
  }

  /** `string.ascii_uppercase[i]`. */
  function Letter(i: nat): char
    requires i < 26
  {
    (65 + i) as char
  }

  /** The `i`-th name of round `n` of the naming loop: a capital letter,
      followed by the round number from the second round on. */
  function Candidate(n: nat, i: nat): (r: string)
    requires i < 26
    ensures |r| > 0 && 'A' <= r[0] <= 'Z'
    ensures |r| == 1 <==> n == 0
  {
    [Letter(i)] + (if n == 0 then "" else NatToString(n))
  }

  lemma CandidateInjective(n: nat, i: nat, m: nat, j: nat)
    requires i < 26 && j < 26 && Candidate(n, i) == Candidate(m, j)
    ensures n == m && i == j
  {
    var c, d := Candidate(n, i), Candidate(m, j);
    assert c[0] == Letter(i) && d[0] == Letter(j);
    assert c[1..] == (if n == 0 then "" else NatToString(n));
    assert d[1..] == (if m == 0 then "" else NatToString(m));
    if n != 0 && m != 0 {
      NatToStringInjective(n, m);
    }
  }

  /** Round `n`, position `i` holds the first name the loop finds free. */
  ghost predicate FirstFree(names: set<string>, n: nat, i: nat)
    requires i < 26
  {
    && Candidate(n, i) !in names
    && RoundsTaken(names, n)
    && (forall j :: 0 <= j < i ==> Candidate(n, j) in names)
  }

  /** Every name of the rounds before `n` is in use. */
  ghost predicate RoundsTaken(names: set<string>, n: nat) {
    forall m, j :: 0 <= m < n && 0 <= j < 26 ==> Candidate(m, j) in names
  }

  lemma RoundsTakenStep(names: set<string>, n: nat)
    requires RoundsTaken(names, n)
    requires forall j :: 0 <= j < 26 ==> Candidate(n, j) in names
    ensures RoundsTaken(names, n + 1)
  {
  }

  /** There is only one first free name. */
  lemma FirstFreeUnique(names: set<string>, n: nat, i: nat, m: nat, j: nat)
    requires i < 26 && j < 26 && FirstFree(names, n, i) && FirstFree(names, m, j)
    ensures n == m && i == j
  {
  }

  /** The names of the rounds before `num`. */
  ghost function Scanned(num: nat): set<string> {
    set n, i | 0 <= n < num && 0 <= i < 26 :: Candidate(n, i)
  }

  /** A round with no free name leaves fewer names in use unscanned. */
  lemma ScannedGrows(names: set<string>, num: nat)
    requires forall i :: 0 <= i < 26 ==> Candidate(num, i) in names
    ensures |names - Scanned(num + 1)| < |names - Scanned(num)|
  {
    var x := Candidate(num, 0);
    ScannedNew(num);
    ScannedMono(num);
    var a, b := names - Scanned(num + 1), (names - Scanned(num)) - {x};
    assert a <= b;
    assert |b| == |names - Scanned(num)| - 1;
    SubsetCard(a, b);
  }

  lemma ScannedNew(num: nat)
    ensures Candidate(num, 0) !in Scanned(num) && Candidate(num, 0) in Scanned(num + 1)
  {
    var x := Candidate(num, 0);
    if x in Scanned(num) {
      var n, i :| 0 <= n < num && 0 <= i < 26 && x == Candidate(n, i);
      CandidateInjective(n, i, num, 0);
    }
    assert x in Scanned(num + 1);
  }

  lemma ScannedMono(num: nat)
    ensures Scanned(num) <= Scanned(num + 1)
  {
    forall y | y in Scanned(num)
      ensures y in Scanned(num + 1)
    {
      var n, i :| 0 <= n < num && 0 <= i < 26 && y == Candidate(n, i);
    }
  }

  lemma SubsetCard(a: set<string>, b: set<string>)
    requires a <= b
    ensures |a| <= |b|
  {
    assert b == a + (b - a);
  }

  /** The naming loop of `add`: A..Z, then A1..Z1, A2..Z2 and so on, up to the
      first name not in use. */
  method FreshName(names: set<string>) returns (letter: string)
    ensures letter !in names
    ensures exists n: nat, i: nat :: i < 26 && letter == Candidate(n, i) && FirstFree(names, n, i)
  {
    var gotIt := false;
    var num := 0;
    letter := "";
    ghost var fn, fi := 0, 0;
    while !gotIt
      invariant !gotIt ==> RoundsTaken(names, num)
      invariant gotIt ==> fi < 26 && letter == Candidate(fn, fi) && FirstFree(names, fn, fi)
      decreases !gotIt, |names - Scanned(num)|
    {
      var index;
      index, letter := ScanRound(names, num);
      if index < 26 {
        gotIt := true;
        fn, fi := num, index;
      } else {
        ScannedGrows(names, num);
        RoundsTakenStep(names, num);
      }
      num := num + 1;
    }
  }

  /** The inner loop of the naming loop: one round of 26 names, up to the
      first free one (`index` is 26 when there is none). */
  method ScanRound(names: set<string>, num: nat) returns (index: nat, letter: string)
    ensures index <= 26
    ensures forall i :: 0 <= i < index ==> Candidate(num, i) in names
    ensures index < 26 ==> letter == Candidate(num, index) && letter !in names
  {
    index := 0;
    letter := "";
    while index < 26
      invariant 0 <= index <= 26
      invariant forall i :: 0 <= i < index ==> Candidate(num, i) in names
    {
      if num == 0 {
        letter := [Letter(index)];
      } else {
        letter := [Letter(index)] + NatToString(num);
      }
      assert letter == Candidate(num, index);
      if letter !in names {
        return;
      }
      index := index + 1;
    }
  }

  /** The first stored region with the given bounds, in the (unspecified)
      order the table is walked. */
  method FindSameBounds(regs: map<string, Region>, item: Region) returns (found: Option<string>)
    ensures found.Some? ==> found.value in regs && SameBounds(regs[found.value], item)
    ensures found.None? ==> forall k :: k in regs ==> !SameBounds(regs[k], item)
  {
    var keys := regs.Keys;
    while keys != {}
      invariant keys <= regs.Keys
      invariant forall k :: k in regs && k !in keys ==> !SameBounds(regs[k], item)
      decreases |keys|
    {
      var k :| k in keys;
      if SameBounds(regs[k], item) {
        return Some(k);
      }
      keys := keys - {k};
    }
    return None;
  }

  lemma AddKeepsConsistent(regs: map<string, Region>, nm: string, item: Region)
    requires Consistent(regs) && nm !in regs && item.name == Some(nm)
    requires forall k :: k in regs ==> !SameBounds(regs[k], item)
    ensures Consistent(regs[nm := item])
  {
  }

  /** The part of `m` whose keys are in `s`. */
  function Keep(m: map<string, Region>, s: set<string>): map<string, Region> {
    map k | k in m && k in s :: m[k]
  }

  lemma KeepAllKeys(m: map<string, Region>, s: set<string>)
    requires m.Keys <= s
    ensures Keep(m, s) == m
  {
  }

  lemma KeepRemove(m: map<string, Region>, s: set<string>, n: string)
    ensures Keep(m, s) - {n} == Keep(m, s - {n})
  {
  }

  lemma KeepOnly(m: map<string, Region>, k: string)
    ensures Keep(m, {k}) == if k in m then map[k := m[k]] else map[]
  {
  }

  /** The equal-bounds branch of `add` as written: once the name check has
      passed, the message reads `reg.name` off the stored item, a dict
      without that attribute, so the branch raises AttributeError instead of
      reporting the stored name. */
  predicate BoundsCheckRaisesAsWritten(regs: map<string, Region>, item: Region) {
    && !(item.name.Some? && item.name.value in regs)
    && exists k :: k in regs && SameBounds(regs[k], item)
  }

  /** On the table of a fresh experiment, a region under a free name (or
      none) given the bounds of 'ALL' makes `add` raise, where the intended
      answer names 'ALL'. */
  lemma BoundsOfAllRaise(tmin: Option<real>, tmax: Option<real>, name: Option<string>)
    requires name != Some("ALL")
    ensures var regs := map["ALL" := Region(Some("ALL"), tmin, tmax)];
            BoundsCheckRaisesAsWritten(regs, Region(name, tmin, tmax))
            && forall k :: k in regs && SameBounds(regs[k], Region(name, tmin, tmax)) ==> k == "ALL"
  {
    var regs := map["ALL" := Region(Some("ALL"), tmin, tmax)];
    assert "ALL" in regs && SameBounds(regs["ALL"], Region(name, tmin, tmax));
  }

  datatype AddResult = NameTaken | BoundsTaken(existing: string) | Added(name: string)

  datatype UndefinedRegion = UndefinedRegion(name: string)

  class Regions {
    /** `_regions`: name to region. */
    var regions: map<string, Region>

    ghost predicate Valid()
      reads this
    {
      Consistent(regions)
    }

    /** The table of a fresh experiment with no saved regions: the single
        region 'ALL' spanning the experiment's times. */
    constructor(tmin: Option<real>, tmax: Option<real>)
      ensures Valid() && regions == map["ALL" := Region(Some("ALL"), tmin, tmax)]
    {
      regions := map["ALL" := Region(Some("ALL"), tmin, tmax)];
    }

    /** `names`. */
    function Names(): (ns: set<string>)
      reads this
    {
      regions.Keys
    }

    /** `add(region, name, tmin, tmax)`: a region given as an object wins over
        the keyword arguments; a name in use, or bounds equal to a stored
        region's, leave the table as it is; otherwise the region is stored
        under its name, or under the first free generated one. */
    method Add(region: Option<Region>, name: Option<string>, tmin: Option<real>, tmax: Option<real>)
      returns (res: AddResult)
      requires Valid()
      modifies this
      ensures Valid()
      ensures var item := if region.Some? then region.value else Region(name, tmin, tmax);
              var taken := item.name.Some? && item.name.value in old(Names());
              && (res == NameTaken <==> taken)
              && (res.BoundsTaken? <==>
                    !taken && exists k :: k in old(regions) && SameBounds(old(regions)[k], item))
              && (res.Added? <==>
                    !taken && forall k :: k in old(regions) ==> !SameBounds(old(regions)[k], item))
              && (!res.Added? ==> regions == old(regions))
              && (res.BoundsTaken? ==>
                    res.existing in old(regions) && SameBounds(old(regions)[res.existing], item))
              && (res.Added? ==>
                    && res.name !in old(Names())
                    && regions == old(regions)[res.name := item.(name := Some(res.name))]
                    && (item.name.Some? ==> res.name == item.name.value)
                    && (item.name.None? ==>
                          exists n: nat, i: nat :: i < 26 && res.name == Candidate(n, i)
                                                   && FirstFree(old(Names()), n, i)))
    {
      var item := if region.Some? then region.value else Region(name, tmin, tmax);
      if item.name.Some? && item.name.value in Names() {
        return NameTaken;
      }
      var same := FindSameBounds(regions, item);
      if same.Some? {
        return BoundsTaken(same.value);
      }
      var nm: string;
      if item.name.None? {
        nm := FreshName(Names());
      } else {
        nm := item.name.value;
      }
      AddKeepsConsistent(regions, nm, item.(name := Some(nm)));
      regions := regions[nm := item.(name := Some(nm))];
      res := Added(nm);
    }

    /** `delete(name)`: removes the named region, if there is one. */
    method Delete(name: string)
      requires Valid()
      modifies this
      ensures Valid() && regions == old(regions) - {name}
    {
      if name in Names() {
        regions := regions - {name};
      }
    }

    /** `reset`: every region but 'ALL' is deleted. */
    method Reset()
      requires Valid()
      modifies this
      ensures Valid()
      ensures regions == if "ALL" in old(regions) then map["ALL" := old(regions)["ALL"]] else map[]
    {
      var names := Names();
      KeepAllKeys(regions, names + {"ALL"});
      while names != {}
        invariant Valid() && regions == Keep(old(regions), names + {"ALL"})
        decreases |names|
      {
        var n :| n in names;
        if n != "ALL" {
          KeepRemove(old(regions), names + {"ALL"}, n);
          Delete(n);
        }
        assert (names - {n}) + {"ALL"} == if n == "ALL" then names + {"ALL"} else (names + {"ALL"}) - {n};
        names := names - {n};
      }
      KeepOnly(old(regions), "ALL");
    }

    /** `get(name)`: the stored region, or `UndefinedRegion`. */
    function Get(name: string): (r: Result<Region, UndefinedRegion>)
      reads this
      ensures r.Err? <==> name !in Names()
      ensures r.Err? ==> r.error == UndefinedRegion(name)
      ensures r.Ok? ==> name in regions && r.value == regions[name]
      ensures Valid() && r.Ok? ==> r.value.name == Some(name)
    {
      if name !in Names() then Err(UndefinedRegion(name)) else Ok(regions[name])
    }
  }
}
