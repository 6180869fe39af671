/**
 * Desk discovery: every adapter's scan results are filtered by advertised
 * local name and the per-adapter lists are joined (`get_desks` and
 * `search_adapter_for_desks`). The scan itself, its 2-second wait and the
 * BLE manager are oracles: an `Adapter` value holds what they returned.
 */
module Directory {
  import opened Basics
  import opened Protocol

  /** The substring that marks a desk when no name filter is given. */
  const DESK_KEYWORD: string := "Desk"

  /** The advertised properties of a peripheral; only the local name matters here. */
  datatype Properties = Properties(localName: Option<string>)

  /** One peripheral seen by an adapter, with what `properties()` returned for it. */
  datatype PeripheralRecord = PeripheralRecord(id: nat, properties: Result<Option<Properties>, BtError>)

  /** One adapter: the outcome of `start_scan` and of `peripherals()`. */
  datatype Adapter = Adapter(scanError: Option<BtError>, peripherals: Result<seq<PeripheralRecord>, BtError>)

  /** A matched desk and the name it advertised ("" when it had none). */
  datatype ExpandedPeripheral = ExpandedPeripheral(perp: nat, name: string)

  function LocalNameOrEmpty(props: Properties): string {
    match props.localName
    case Some(n) => n
    case None => ""
  }

  /** The name filter of `search_adapter_for_desks`. */
  predicate NameMatches(filter: Option<string>, props: Properties) {
    match filter
    case Some(n) => n == LocalNameOrEmpty(props)
    case None => props.localName.Some? && Contains(props.localName.value, DESK_KEYWORD)
  }

  /** The peripheral has properties and they pass the filter. */
  predicate Kept(rec: PeripheralRecord, filter: Option<string>) {
    rec.properties.Ok? && rec.properties.value.Some? && NameMatches(filter, rec.properties.value.value)
  }

  function Expand(rec: PeripheralRecord): ExpandedPeripheral
    requires rec.properties.Ok? && rec.properties.value.Some?
  {
    ExpandedPeripheral(rec.id, LocalNameOrEmpty(rec.properties.value.value))
  }

  /** `acc` prepended to a successful result; an error passes through. */
  function PrependOk<T>(acc: seq<T>, r: Result<seq<T>, Error>): Result<seq<T>, Error> {
    match r
    case Ok(rest) => Ok(acc + rest)
    case Err(e) => Err(e)
  }

  lemma PrependOkFacts<T>(a: seq<T>, b: seq<T>, r: Result<seq<T>, Error>)
    ensures PrependOk([], r) == r
    ensures PrependOk(a, Ok([])) == Ok(a)
    ensures PrependOk(a, PrependOk(b, r)) == PrependOk(a + b, r)
  {
    assert a + [] == a;
    if r.Ok? {
      assert [] + r.value == r.value;
      assert a + (b + r.value) == (a + b) + r.value;
    }
  }

  /**
   * The loop over `adapter.peripherals()`: peripherals without properties
   * are skipped, matching ones kept in order, and a `properties()` failure
   * aborts with that error.
   */
  function FilterPeripherals(ps: seq<PeripheralRecord>, filter: Option<string>): Result<seq<ExpandedPeripheral>, Error>
    decreases |ps|
  {
    if ps == [] then Ok([])
    else match ps[0].properties
      case Err(e) => Err(BtlePlugError(e))
      case Ok(None) => FilterPeripherals(ps[1..], filter)
      case Ok(Some(props)) =>
        if NameMatches(filter, props) then PrependOk([Expand(ps[0])], FilterPeripherals(ps[1..], filter))
        else FilterPeripherals(ps[1..], filter)
  }

  /** What `search_adapter_for_desks` returns for one adapter. */
  function SearchAdapterSpec(adapter: Adapter, filter: Option<string>): Result<seq<ExpandedPeripheral>, Error> {
    if adapter.scanError.Some? then Err(BtlePlugError(adapter.scanError.value))
    else match adapter.peripherals
      case Err(e) => Err(BtlePlugError(e))
      case Ok(ps) => FilterPeripherals(ps, filter)
  }

  /** `search_adapter_for_desks`: start the scan, then push every matching peripheral. */
  method SearchAdapter(adapter: Adapter, filter: Option<string>) returns (r: Result<seq<ExpandedPeripheral>, Error>)
    ensures r == SearchAdapterSpec(adapter, filter)
  {
    if adapter.scanError.Some? {
      return Err(BtlePlugError(adapter.scanError.value));
    }
    if adapter.peripherals.Err? {
      return Err(BtlePlugError(adapter.peripherals.error));
    }
    var ps := adapter.peripherals.value;
    var desks: seq<ExpandedPeripheral> := [];
    var i := 0;
    assert ps[0..] == ps;
    PrependOkFacts(desks, desks, FilterPeripherals(ps, filter));
    while i < |ps|
      invariant 0 <= i <= |ps|
      invariant FilterPeripherals(ps, filter) == PrependOk(desks, FilterPeripherals(ps[i..], filter))
    {
      assert ps[i..][1..] == ps[i + 1..];
      match ps[i].properties {
        case Err(e) =>
          return Err(BtlePlugError(e));
        case Ok(None) =>
        case Ok(Some(props)) =>
          if NameMatches(filter, props) {
            PrependOkFacts(desks, [Expand(ps[i])], FilterPeripherals(ps[i + 1..], filter));
            desks := desks + [Expand(ps[i])];
          }
      }
      i := i + 1;
    }
    PrependOkFacts(desks, desks, Ok([]));
    return Ok(desks);
  }

  /**
   * The second loop of `get_desks`: every job is unwrapped in adapter order
   * (a failed search panics) and the lists are appended.
   */
  function JoinJobs(jobs: seq<Result<seq<ExpandedPeripheral>, Error>>): Result<seq<ExpandedPeripheral>, Error>
    decreases |jobs|
  {
    if jobs == [] then Ok([])
    else match jobs[0]
      case Err(_) => Err(Panic("called `Result::unwrap()` on an `Err` value"))
      case Ok(ds) => PrependOk(ds, JoinJobs(jobs[1..]))
  }

  function SearchAll(adapters: seq<Adapter>, filter: Option<string>): (jobs: seq<Result<seq<ExpandedPeripheral>, Error>>)
    ensures |jobs| == |adapters|
    ensures forall i :: 0 <= i < |adapters| ==> jobs[i] == SearchAdapterSpec(adapters[i], filter)
  {
    seq(|adapters|, i requires 0 <= i < |adapters| => SearchAdapterSpec(adapters[i], filter))
  }

  /**
   * What `get_desks` returns. `adapters` is what the BLE manager reported
   * (its own failure included); an empty joined list is `CannotFindDevice`.
   */
  function GetDesksSpec(adapters: Result<seq<Adapter>, BtError>, filter: Option<string>): Result<seq<ExpandedPeripheral>, Error> {
    match adapters
    case Err(e) => Err(BtlePlugError(e))
    case Ok(list) =>
      match JoinJobs(SearchAll(list, filter))
      case Err(e) => Err(e)
      case Ok(desks) => if desks == [] then Err(CannotFindDevice) else Ok(desks)
  }

  /** `get_desks`: search each adapter, then join the results. */
  method GetDesks(adapters: Result<seq<Adapter>, BtError>, filter: Option<string>) returns (r: Result<seq<ExpandedPeripheral>, Error>)
    ensures r == GetDesksSpec(adapters, filter)
  {
    if adapters.Err? {
      return Err(BtlePlugError(adapters.error));
    }
    var list := adapters.value;
    var jobs: seq<Result<seq<ExpandedPeripheral>, Error>> := [];
    var i := 0;
    while i < |list|
      invariant 0 <= i <= |list|
      invariant jobs == SearchAll(list[..i], filter)
    {
      var job := SearchAdapter(list[i], filter);
      jobs := jobs + [job];
      i := i + 1;
    }
    assert list[..i] == list;
    var desks: seq<ExpandedPeripheral> := [];
    var j := 0;
    assert jobs[0..] == jobs;
    PrependOkFacts(desks, desks, JoinJobs(jobs));
    while j < |jobs|
      invariant 0 <= j <= |jobs|
      invariant JoinJobs(jobs) == PrependOk(desks, JoinJobs(jobs[j..]))
    {
      assert jobs[j..][1..] == jobs[j + 1..];
      if jobs[j].Err? {
        return Err(Panic("called `Result::unwrap()` on an `Err` value"));
      }
      PrependOkFacts(desks, jobs[j].value, JoinJobs(jobs[j + 1..]));
      desks := desks + jobs[j].value;
      j := j + 1;
    }
    PrependOkFacts(desks, desks, Ok([]));
    if desks == [] {
      return Err(CannotFindDevice);
    }
    return Ok(desks);
  }

  // ---- Properties of the filter ----

  /** The filter fails exactly when some peripheral's `properties()` failed. */
  lemma {:induction false} FilterFailsIffPropertiesFail(ps: seq<PeripheralRecord>, filter: Option<string>)
    ensures FilterPeripherals(ps, filter).Err? <==> exists i :: 0 <= i < |ps| && ps[i].properties.Err?
    ensures FilterPeripherals(ps, filter).Err? ==> FilterPeripherals(ps, filter).error.BtlePlugError?
  {
    if ps != [] {
      FilterFailsIffPropertiesFail(ps[1..], filter);
      if ps[0].properties.Ok? && (exists i :: 0 <= i < |ps| && ps[i].properties.Err?) {
        var i :| 0 <= i < |ps| && ps[i].properties.Err?;
        assert ps[1..][i - 1] == ps[i];
      }
    }
  }

  /** Every kept peripheral is in the result, and everything in it was kept. */
  lemma {:induction false} FilterKeepsExactlyMatching(ps: seq<PeripheralRecord>, filter: Option<string>)
    requires FilterPeripherals(ps, filter).Ok?
    ensures forall i :: 0 <= i < |ps| && Kept(ps[i], filter) ==> Expand(ps[i]) in FilterPeripherals(ps, filter).value
    ensures forall d :: d in FilterPeripherals(ps, filter).value ==>
              exists i :: 0 <= i < |ps| && Kept(ps[i], filter) && d == Expand(ps[i])
    ensures |FilterPeripherals(ps, filter).value| <= |ps|
  {
    if ps != [] {
      var rest := FilterPeripherals(ps[1..], filter);
      FilterKeepsExactlyMatching(ps[1..], filter);
      forall i | 0 < i < |ps| ensures ps[1..][i - 1] == ps[i] { }
      forall d | d in FilterPeripherals(ps, filter).value
        ensures exists i :: 0 <= i < |ps| && Kept(ps[i], filter) && d == Expand(ps[i])
      {
        if d in rest.value {
          var k :| 0 <= k < |ps[1..]| && Kept(ps[1..][k], filter) && d == Expand(ps[1..][k]);
          assert Kept(ps[k + 1], filter) && d == Expand(ps[k + 1]);
        } else {
          assert Kept(ps[0], filter) && d == Expand(ps[0]);
        }
      }
    }
  }

  /** With `Some(n)`, every desk found advertises exactly `n` ("" counting as no name). */
  lemma {:induction false} FilterByExactName(ps: seq<PeripheralRecord>, n: string)
    requires FilterPeripherals(ps, Some(n)).Ok?
    ensures forall d :: d in FilterPeripherals(ps, Some(n)).value ==> d.name == n
  {
    FilterKeepsExactlyMatching(ps, Some(n));
  }

  /** With no filter, every desk found advertises a name containing "Desk". */
  lemma {:induction false} FilterByKeyword(ps: seq<PeripheralRecord>)
    requires FilterPeripherals(ps, None).Ok?
    ensures forall d :: d in FilterPeripherals(ps, None).value ==> Contains(d.name, DESK_KEYWORD)
  {
    FilterKeepsExactlyMatching(ps, None);
  }

  /** Joining fails exactly when some job failed; otherwise it is the concatenation. */
  lemma {:induction false} JoinJobsOutcome(jobs: seq<Result<seq<ExpandedPeripheral>, Error>>)
    ensures JoinJobs(jobs).Err? <==> exists i :: 0 <= i < |jobs| && jobs[i].Err?
    ensures JoinJobs(jobs).Err? ==> JoinJobs(jobs).error.Panic?
    ensures JoinJobs(jobs).Ok? && jobs != [] ==> JoinJobs(jobs).value == jobs[0].value + JoinJobs(jobs[1..]).value
    ensures JoinJobs(jobs) == Ok([]) <==> forall i :: 0 <= i < |jobs| ==> jobs[i] == Ok([])
  {
    if jobs != [] {
      JoinJobsOutcome(jobs[1..]);
      forall i | 0 < i < |jobs| ensures jobs[1..][i - 1] == jobs[i] { }
      if jobs[0].Ok? && JoinJobs(jobs[1..]).Ok? {
        assert JoinJobs(jobs).value == jobs[0].value + JoinJobs(jobs[1..]).value;
        if JoinJobs(jobs) == Ok([]) {
          assert |jobs[0].value| == 0;
        }
      }
    }
  }

  /**
   * `get_desks` reports `CannotFindDevice` exactly when every adapter was
   * searched without error and none of them yielded a desk; a failed
   * adapter search makes it panic.
   */
  lemma GetDesksNotFound(list: seq<Adapter>, filter: Option<string>)
    ensures GetDesksSpec(Ok(list), filter) == Err(CannotFindDevice) <==>
              forall i :: 0 <= i < |list| ==> SearchAdapterSpec(list[i], filter) == Ok([])
    ensures GetDesksSpec(Ok(list), filter).Err? && GetDesksSpec(Ok(list), filter).error.Panic? <==>
              exists i :: 0 <= i < |list| && SearchAdapterSpec(list[i], filter).Err?
  {
    var jobs := SearchAll(list, filter);
    JoinJobsOutcome(jobs);
    if exists i :: 0 <= i < |list| && SearchAdapterSpec(list[i], filter).Err? {
      var i :| 0 <= i < |list| && SearchAdapterSpec(list[i], filter).Err?;
      assert jobs[i].Err?;
    }
  }

  /** The name a found desk advertised satisfies the filter it was found with. */
  predicate NameFits(filter: Option<string>, name: string) {
    match filter
    case Some(n) => name == n
    case None => Contains(name, DESK_KEYWORD)
  }

  lemma {:induction false} JoinedNamesFit(jobs: seq<Result<seq<ExpandedPeripheral>, Error>>, filter: Option<string>)
    requires forall i :: 0 <= i < |jobs| && jobs[i].Ok? ==> forall d :: d in jobs[i].value ==> NameFits(filter, d.name)
    ensures JoinJobs(jobs).Ok? ==> forall d :: d in JoinJobs(jobs).value ==> NameFits(filter, d.name)
    decreases |jobs|
  {
    if jobs != [] && jobs[0].Ok? {
      forall i | 0 <= i < |jobs[1..]| ensures jobs[1..][i] == jobs[i + 1] { }
      JoinedNamesFit(jobs[1..], filter);
    }
  }

  /**
   * Every desk `get_desks` returns advertises exactly the requested name,
   * or, with no name given, a name containing "Desk"; and the list is
   * never empty.
   */
  lemma GetDesksNamesFit(adapters: Result<seq<Adapter>, BtError>, filter: Option<string>)
    ensures var r := GetDesksSpec(adapters, filter);
      r.Ok? ==> |r.value| > 0 && forall d :: d in r.value ==> NameFits(filter, d.name)
  {
    if adapters.Ok? {
      var jobs := SearchAll(adapters.value, filter);
      forall i | 0 <= i < |jobs| && jobs[i].Ok?
        ensures forall d :: d in jobs[i].value ==> NameFits(filter, d.name)
      {
        var a := adapters.value[i];
        assert jobs[i] == SearchAdapterSpec(a, filter);
        var ps := a.peripherals.value;
        match filter {
          case Some(n) => FilterByExactName(ps, n);
          case None => FilterByKeyword(ps);
        }
      }
      JoinedNamesFit(jobs, filter);
    }
  }

  /** The scenario: filtering for "Desk A" among "Desk A" and "Desk B" finds one desk, "Desk A". */
  lemma FilterScenario()
    ensures
      var ps := [PeripheralRecord(1, Ok(Some(Properties(Some("Desk A"))))),
                 PeripheralRecord(2, Ok(Some(Properties(Some("Desk B")))))];
      GetDesksSpec(Ok([Adapter(None, Ok(ps))]), Some("Desk A")) == Ok([ExpandedPeripheral(1, "Desk A")])
  {
    var ps := [PeripheralRecord(1, Ok(Some(Properties(Some("Desk A"))))),
               PeripheralRecord(2, Ok(Some(Properties(Some("Desk B")))))];
    assert ps[1..][1..] == [];
    assert "Desk B" != "Desk A" by { assert "Desk B"[5] != "Desk A"[5]; }
    assert !NameMatches(Some("Desk A"), Properties(Some("Desk B")));
    assert FilterPeripherals(ps[1..], Some("Desk A")) == Ok([]);
    var r := FilterPeripherals(ps, Some("Desk A"));
    assert Expand(ps[0]) == ExpandedPeripheral(1, "Desk A");
    PrependOkFacts([Expand(ps[0])], [], Ok([]));
    assert r == Ok([ExpandedPeripheral(1, "Desk A")]);
    var jobs := SearchAll([Adapter(None, Ok(ps))], Some("Desk A"));
    assert jobs == [r];
    assert jobs[1..] == [];
  }
}
