/**
 * What one pass of the device monitor's service-discovery handler computes,
 * stated on values: the two characteristic slots, the "service seen" flags,
 * the session starts it requests, and the single missing item its warning names.
 *
 * The pass is written as a left fold over the discovered services and, inside
 * each service, over its characteristics, in the order the stack lists them;
 * DeviceMonitor.OnServicesDiscovered runs the same pass with nested loops and is
 * proved equal to it. Matches, LastWith and Snapshots give an independent
 * description (the wanted characteristics in iteration order, the last one of
 * each kind, the slots as they stood at each start), and the lemmas below tie
 * the fold to it and to plain statements about the input list.
 */
module Discovery {
  import opened Wrappers
  import opened Gatt

  /** The heart-rate and battery slots and the session starts requested so far. */
  datatype Slots = Slots(hr: Option<Characteristic>, bat: Option<Characteristic>, started: seq<ServiceCall>)

  /** The slots together with the handler's two local flags: was the Heart Rate / Battery service listed. */
  datatype Resolution = Resolution(slots: Slots, hrFound: bool, batFound: bool)

  /** The state at the start of a pass over a non-null list: both slots cleared, neither service seen. */
  const Cleared := Resolution(Slots(None, None, []), false, false)

  /** The one item a warning names. */
  datatype MissingItem =
    | HeartRateServiceMissing
    | HeartRateMeasurementMissing
    | BatteryServiceMissing
    | BatteryLevelMissing

  const WarningHeader := "Services and Characteristics not found:\n"

  function MissingLabel(m: MissingItem): string
  {
    match m
    case HeartRateServiceMissing => "  Heart Rate\n"
    case HeartRateMeasurementMissing => "    Heart Rate Measurement\n"
    case BatteryServiceMissing => "  Battery\n"
    case BatteryLevelMissing => "    Battery Level\n"
  }

  // ---------------------------------------------------------------------------
  // The pass, step by step
  // ---------------------------------------------------------------------------

  /** Asking the service to start a session with the slots as they stand. */
  function RequestStart(s: Slots): Slots
  {
    s.(started := s.started + [StartSession(s.bat, s.hr)])
  }

  /** The characteristic-found hook: store a measurement or level characteristic in its slot, and request a session start for any of the three interesting identifiers. */
  function CharacteristicFound(s: Slots, c: Characteristic): Slots
  {
    if c.uuid == HeartRateMeasurement then RequestStart(s.(hr := Some(c)))
    else if c.uuid == BatteryLevel then RequestStart(s.(bat := Some(c)))
    else if c.uuid == CustomMeasurement then RequestStart(s)
    else s
  }

  /** The inner-loop body for characteristic `c` of a service whose identifier is `service`. */
  function VisitCharacteristic(s: Slots, service: Uuid, c: Characteristic): Slots
  {
    if service == HeartRateService then
      if c.uuid == HeartRateMeasurement then CharacteristicFound(s.(hr := Some(c)), c) else s
    else if service == BatteryService then
      if c.uuid == BatteryLevel then CharacteristicFound(s.(bat := Some(c)), c) else s
    else s
  }

  /** The inner loop run over the characteristics `cs`, first to last. */
  function ScanCharacteristics(s: Slots, service: Uuid, cs: seq<Characteristic>): Slots
    decreases |cs|
  {
    if cs == [] then s
    else VisitCharacteristic(ScanCharacteristics(s, service, cs[..|cs| - 1]), service, cs[|cs| - 1])
  }

  /** The outer-loop body: only the Heart Rate service and, failing that, the Battery service are scanned. */
  function VisitService(r: Resolution, svc: Service): Resolution
  {
    if svc.uuid == HeartRateService then
      Resolution(ScanCharacteristics(r.slots, svc.uuid, svc.characteristics), true, r.batFound)
    else if svc.uuid == BatteryService then
      Resolution(ScanCharacteristics(r.slots, svc.uuid, svc.characteristics), r.hrFound, true)
    else r
  }

  /** The whole pass over a non-null service list, first service to last. */
  function ScanServices(ss: seq<Service>): Resolution
    decreases |ss|
  {
    if ss == [] then Cleared
    else VisitService(ScanServices(ss[..|ss| - 1]), ss[|ss| - 1])
  }

  /** The else-if chain that picks the one item the warning names; None when nothing is missing. */
  function FirstMissing(r: Resolution): (m: Option<MissingItem>)
    ensures m.None? <==> r.hrFound && r.slots.hr.Some? && r.batFound && r.slots.bat.Some?
    ensures m == Some(HeartRateServiceMissing) <==> !r.hrFound
    ensures m == Some(HeartRateMeasurementMissing) <==> r.hrFound && r.slots.hr.None?
    ensures m == Some(BatteryServiceMissing) <==> r.hrFound && r.slots.hr.Some? && !r.batFound
    ensures m == Some(BatteryLevelMissing) <==> r.hrFound && r.slots.hr.Some? && r.batFound && r.slots.bat.None?
  {
    if !r.hrFound then Some(HeartRateServiceMissing)
    else if r.slots.hr.None? then Some(HeartRateMeasurementMissing)
    else if !r.batFound then Some(BatteryServiceMissing)
    else if r.slots.bat.None? then Some(BatteryLevelMissing)
    else None
  }

  // ---------------------------------------------------------------------------
  // An independent description of the outcome
  // ---------------------------------------------------------------------------

  /** The pairs the handler looks for: a Heart Rate Measurement inside the Heart Rate service, a Battery Level inside the Battery service. */
  predicate Wanted(service: Uuid, c: Characteristic)
  {
    || (service == HeartRateService && c.uuid == HeartRateMeasurement)
    || (service == BatteryService && c.uuid == BatteryLevel)
  }

  /** The wanted characteristics among `cs`, in order. */
  function WantedIn(service: Uuid, cs: seq<Characteristic>): (m: seq<Characteristic>)
    ensures forall x :: x in m <==> x in cs && Wanted(service, x)
    ensures |m| <= |cs|
    decreases |cs|
  {
    if cs == [] then []
    else
      assert cs == cs[..|cs| - 1] + [cs[|cs| - 1]];
      WantedIn(service, cs[..|cs| - 1]) + (if Wanted(service, cs[|cs| - 1]) then [cs[|cs| - 1]] else [])
  }

  /** Every wanted characteristic of the list, in the order the handler meets them. */
  function Matches(ss: seq<Service>): seq<Characteristic>
    decreases |ss|
  {
    if ss == [] then []
    else Matches(ss[..|ss| - 1]) + WantedIn(ss[|ss| - 1].uuid, ss[|ss| - 1].characteristics)
  }

  /** The last characteristic of `f` whose identifier is `u`, if any. */
  function LastWith(f: seq<Characteristic>, u: Uuid): (r: Option<Characteristic>)
    ensures r.None? <==> forall x :: x in f ==> x.uuid != u
    ensures r.Some? ==> r.value in f && r.value.uuid == u
    decreases |f|
  {
    if f == [] then None
    else if f[|f| - 1].uuid == u then Some(f[|f| - 1])
    else
      assert f == f[..|f| - 1] + [f[|f| - 1]];
      LastWith(f[..|f| - 1], u)
  }

  /** The session start requested after each element of `f`, with the slots as they stood at that moment. */
  function Snapshots(f: seq<Characteristic>): seq<ServiceCall>
    decreases |f|
  {
    if f == [] then []
    else Snapshots(f[..|f| - 1]) + [StartSession(LastWith(f, BatteryLevel), LastWith(f, HeartRateMeasurement))]
  }

  /** Slots `s` are what the independent description gives for the wanted characteristics `f`. */
  ghost predicate Agrees(s: Slots, f: seq<Characteristic>)
  {
    && s.hr == LastWith(f, HeartRateMeasurement)
    && s.bat == LastWith(f, BatteryLevel)
    && s.started == Snapshots(f)
  }

  /** The Heart Rate service (or any `service`) is listed. */
  ghost predicate Lists(ss: seq<Service>, service: Uuid)
  {
    exists i :: 0 <= i < |ss| && ss[i].uuid == service
  }

  /** Some entry for `service` holds a characteristic with identifier `ch`. */
  ghost predicate Offers(ss: seq<Service>, service: Uuid, ch: Uuid)
  {
    exists i, j :: 0 <= i < |ss| && 0 <= j < |ss[i].characteristics| &&
      ss[i].uuid == service && ss[i].characteristics[j].uuid == ch
  }

  // ---------------------------------------------------------------------------
  // Lemmas
  // ---------------------------------------------------------------------------

  /** LastWith picks the last element with that identifier: nothing after it has it. */
  lemma {:induction false} LastWithIsLast(f: seq<Characteristic>, u: Uuid)
    requires LastWith(f, u).Some?
    ensures exists k :: 0 <= k < |f| && f[k] == LastWith(f, u).value && AfterLacks(f, k, u)
    decreases |f|
  {
    var n := |f|;
    if f[n - 1].uuid == u {
      assert AfterLacks(f, n - 1, u);
    } else {
      var init := f[..n - 1];
      LastWithIsLast(init, u);
      var k :| 0 <= k < |init| && init[k] == LastWith(init, u).value && AfterLacks(init, k, u);
      assert f[k] == init[k];
      forall k' | k < k' < n
        ensures f[k'].uuid != u
      {
        if k' < n - 1 {
          assert f[k'] == init[k'];
        }
      }
      assert AfterLacks(f, k, u);
    }
  }

  /** No element of `f` after position k has identifier `u`. */
  ghost predicate AfterLacks(f: seq<Characteristic>, k: nat, u: Uuid)
  {
    forall k' :: k < k' < |f| ==> f[k'].uuid != u
  }

  /** The snapshot after element k of `f` holds the last level and last measurement among f[..k+1]. */
  lemma {:induction false} SnapshotsAt(f: seq<Characteristic>)
    ensures |Snapshots(f)| == |f|
    ensures forall k :: 0 <= k < |f| ==>
      Snapshots(f)[k] == StartSession(LastWith(f[..k + 1], BatteryLevel), LastWith(f[..k + 1], HeartRateMeasurement))
    decreases |f|
  {
    if f != [] {
      var init := f[..|f| - 1];
      SnapshotsAt(init);
      forall k | 0 <= k < |f|
        ensures Snapshots(f)[k] == StartSession(LastWith(f[..k + 1], BatteryLevel), LastWith(f[..k + 1], HeartRateMeasurement))
      {
        if k < |f| - 1 {
          assert init[..k + 1] == f[..k + 1];
        } else {
          assert f[..k + 1] == f;
        }
      }
    }
  }

  /** The inner loop extends the description by exactly the wanted characteristics it meets. */
  lemma {:induction false} ScanCharacteristicsAgrees(s: Slots, f: seq<Characteristic>, service: Uuid, cs: seq<Characteristic>)
    requires Agrees(s, f)
    ensures Agrees(ScanCharacteristics(s, service, cs), f + WantedIn(service, cs))
    decreases |cs|
  {
    if cs != [] {
      var init, c := cs[..|cs| - 1], cs[|cs| - 1];
      ScanCharacteristicsAgrees(s, f, service, init);
      var s' := ScanCharacteristics(s, service, init);
      var f' := f + WantedIn(service, init);
      assert ScanCharacteristics(s, service, cs) == VisitCharacteristic(s', service, c);
      if Wanted(service, c) {
        var g := f' + [c];
        assert f + WantedIn(service, cs) == g;
        assert g[..|g| - 1] == f';
        assert Snapshots(g) == Snapshots(f') + [StartSession(LastWith(g, BatteryLevel), LastWith(g, HeartRateMeasurement))];
        if c.uuid == HeartRateMeasurement {
          assert VisitCharacteristic(s', service, c) == RequestStart(s'.(hr := Some(c)));
          assert LastWith(g, HeartRateMeasurement) == Some(c);
          assert LastWith(g, BatteryLevel) == LastWith(f', BatteryLevel);
        } else {
          assert VisitCharacteristic(s', service, c) == RequestStart(s'.(bat := Some(c)));
          assert LastWith(g, BatteryLevel) == Some(c);
          assert LastWith(g, HeartRateMeasurement) == LastWith(f', HeartRateMeasurement);
        }
      } else {
        assert VisitCharacteristic(s', service, c) == s';
        assert f + WantedIn(service, cs) == f';
      }
    } else {
      assert f + WantedIn(service, cs) == f;
    }
  }

  /** A service that is neither the Heart Rate nor the Battery service contributes nothing. */
  lemma NothingWantedElsewhere(service: Uuid, cs: seq<Characteristic>)
    requires service != HeartRateService && service != BatteryService
    ensures WantedIn(service, cs) == []
  {
  }

  /** The fold and the independent description agree on every service list. */
  lemma {:induction false} ScanServicesAgrees(ss: seq<Service>)
    ensures Agrees(ScanServices(ss).slots, Matches(ss))
    decreases |ss|
  {
    if ss != [] {
      var init, svc := ss[..|ss| - 1], ss[|ss| - 1];
      ScanServicesAgrees(init);
      if svc.uuid == HeartRateService || svc.uuid == BatteryService {
        ScanCharacteristicsAgrees(ScanServices(init).slots, Matches(init), svc.uuid, svc.characteristics);
      } else {
        NothingWantedElsewhere(svc.uuid, svc.characteristics);
        assert Matches(ss) == Matches(init);
      }
    }
  }

  /** A characteristic is among the matches iff some listed service holds it as a wanted pair. */
  lemma {:induction false} MatchesMembership(ss: seq<Service>, x: Characteristic)
    ensures x in Matches(ss) <==>
      exists i :: 0 <= i < |ss| && x in ss[i].characteristics && Wanted(ss[i].uuid, x)
    decreases |ss|
  {
    if ss != [] {
      var init, last := ss[..|ss| - 1], ss[|ss| - 1];
      MatchesMembership(init, x);
      if x in Matches(ss) {
        if x in Matches(init) {
          var i :| 0 <= i < |init| && x in init[i].characteristics && Wanted(init[i].uuid, x);
          assert ss[i] == init[i];
        } else {
          assert x in WantedIn(last.uuid, last.characteristics);
          assert ss[|ss| - 1] == last;
        }
      } else {
        forall i | 0 <= i < |ss| && x in ss[i].characteristics
          ensures !Wanted(ss[i].uuid, x)
        {
          if i < |ss| - 1 {
            assert init[i] == ss[i];
          }
        }
      }
    }
  }

  /** A slot of kind `ch` is filled iff some `service` entry offers one, and what fills it comes from such an entry. */
  lemma SlotOrigin(ss: seq<Service>, service: Uuid, ch: Uuid)
    requires (service == HeartRateService && ch == HeartRateMeasurement) ||
             (service == BatteryService && ch == BatteryLevel)
    ensures LastWith(Matches(ss), ch).Some? <==> Offers(ss, service, ch)
    ensures LastWith(Matches(ss), ch).Some? ==>
      exists i :: 0 <= i < |ss| && ss[i].uuid == service && LastWith(Matches(ss), ch).value in ss[i].characteristics
  {
    var f := Matches(ss);
    if LastWith(f, ch).Some? {
      var x := LastWith(f, ch).value;
      MatchesMembership(ss, x);
      var i :| 0 <= i < |ss| && x in ss[i].characteristics && Wanted(ss[i].uuid, x);
      var j :| 0 <= j < |ss[i].characteristics| && ss[i].characteristics[j] == x;
      assert ss[i].uuid == service;
    }
    if Offers(ss, service, ch) {
      var i, j :| 0 <= i < |ss| && 0 <= j < |ss[i].characteristics| &&
        ss[i].uuid == service && ss[i].characteristics[j].uuid == ch;
      var x := ss[i].characteristics[j];
      MatchesMembership(ss, x);
      assert x in f;
    }
  }

  /**
   * After a pass over a non-null list the heart-rate slot is filled iff some
   * Heart Rate service entry holds a Heart Rate Measurement characteristic; what
   * fills it is such a characteristic, taken from a Heart Rate service entry, and
   * it is the last one met in iteration order. A measurement under any other
   * service is ignored.
   */
  lemma HeartRateSlot(ss: seq<Service>)
    ensures var hr := ScanServices(ss).slots.hr;
      && (hr.Some? <==> Offers(ss, HeartRateService, HeartRateMeasurement))
      && hr == LastWith(Matches(ss), HeartRateMeasurement)
      && (hr.Some? ==>
            && hr.value.uuid == HeartRateMeasurement
            && exists i :: 0 <= i < |ss| && ss[i].uuid == HeartRateService && hr.value in ss[i].characteristics)
  {
    ScanServicesAgrees(ss);
    SlotOrigin(ss, HeartRateService, HeartRateMeasurement);
  }

  /** The battery slot, likewise: filled iff a Battery service entry holds a Battery Level characteristic, and then with the last such one. */
  lemma BatterySlot(ss: seq<Service>)
    ensures var bat := ScanServices(ss).slots.bat;
      && (bat.Some? <==> Offers(ss, BatteryService, BatteryLevel))
      && bat == LastWith(Matches(ss), BatteryLevel)
      && (bat.Some? ==>
            && bat.value.uuid == BatteryLevel
            && exists i :: 0 <= i < |ss| && ss[i].uuid == BatteryService && bat.value in ss[i].characteristics)
  {
    ScanServicesAgrees(ss);
    SlotOrigin(ss, BatteryService, BatteryLevel);
  }

  /**
   * One session start is requested per wanted characteristic met, and the k-th
   * carries the slots as they stood right after the k-th one was stored, so an
   * early start may carry an empty slot.
   */
  lemma SessionStartPerMatch(ss: seq<Service>)
    ensures var started := ScanServices(ss).slots.started; var f := Matches(ss);
      && |started| == |f|
      && forall k :: 0 <= k < |f| ==>
           started[k] == StartSession(LastWith(f[..k + 1], BatteryLevel), LastWith(f[..k + 1], HeartRateMeasurement))
  {
    ScanServicesAgrees(ss);
    SnapshotsAt(Matches(ss));
  }

  /** The two flags say whether the Heart Rate and the Battery service were listed at all. */
  lemma {:induction false} ServiceFlags(ss: seq<Service>)
    ensures ScanServices(ss).hrFound <==> Lists(ss, HeartRateService)
    ensures ScanServices(ss).batFound <==> Lists(ss, BatteryService)
    decreases |ss|
  {
    if ss != [] {
      var init := ss[..|ss| - 1];
      ServiceFlags(init);
      if Lists(init, HeartRateService) {
        var i :| 0 <= i < |init| && init[i].uuid == HeartRateService;
        assert ss[i] == init[i];
      }
      if Lists(init, BatteryService) {
        var i :| 0 <= i < |init| && init[i].uuid == BatteryService;
        assert ss[i] == init[i];
      }
      if Lists(ss, HeartRateService) && ss[|ss| - 1].uuid != HeartRateService {
        var i :| 0 <= i < |ss| && ss[i].uuid == HeartRateService;
        assert init[i] == ss[i];
      }
      if Lists(ss, BatteryService) && ss[|ss| - 1].uuid != BatteryService {
        var i :| 0 <= i < |ss| && ss[i].uuid == BatteryService;
        assert init[i] == ss[i];
      }
    }
  }

  /**
   * A warning is issued iff the list lacks a heart-rate measurement in a Heart
   * Rate service entry or a battery level in a Battery service entry, and it
   * names the first failing item in the order Heart Rate service, Heart Rate
   * Measurement, Battery service, Battery Level.
   */
  lemma WarningNamesFirstFailure(ss: seq<Service>)
    ensures var m := FirstMissing(ScanServices(ss));
      && (m.None? <==> Offers(ss, HeartRateService, HeartRateMeasurement) && Offers(ss, BatteryService, BatteryLevel))
      && (m == Some(HeartRateServiceMissing) <==> !Lists(ss, HeartRateService))
      && (m == Some(HeartRateMeasurementMissing) <==>
            Lists(ss, HeartRateService) && !Offers(ss, HeartRateService, HeartRateMeasurement))
      && (m == Some(BatteryServiceMissing) <==>
            Offers(ss, HeartRateService, HeartRateMeasurement) && !Lists(ss, BatteryService))
      && (m == Some(BatteryLevelMissing) <==>
            Offers(ss, HeartRateService, HeartRateMeasurement) && Lists(ss, BatteryService) &&
            !Offers(ss, BatteryService, BatteryLevel))
  {
    HeartRateSlot(ss);
    BatterySlot(ss);
    ServiceFlags(ss);
    OffersImpliesLists(ss, HeartRateService, HeartRateMeasurement);
    OffersImpliesLists(ss, BatteryService, BatteryLevel);
  }

  lemma OffersImpliesLists(ss: seq<Service>, service: Uuid, ch: Uuid)
    ensures Offers(ss, service, ch) ==> Lists(ss, service)
  {
    if Offers(ss, service, ch) {
      var i, j :| 0 <= i < |ss| && 0 <= j < |ss[i].characteristics| &&
        ss[i].uuid == service && ss[i].characteristics[j].uuid == ch;
    }
  }

  lemma OffersUnderPermutation(ss: seq<Service>, tt: seq<Service>, service: Uuid, ch: Uuid)
    requires multiset(ss) == multiset(tt)
    ensures Offers(ss, service, ch) ==> Offers(tt, service, ch)
    ensures Lists(ss, service) ==> Lists(tt, service)
  {
    if Offers(ss, service, ch) {
      var i, j :| 0 <= i < |ss| && 0 <= j < |ss[i].characteristics| &&
        ss[i].uuid == service && ss[i].characteristics[j].uuid == ch;
      assert ss[i] in multiset(tt);
      var i' :| 0 <= i' < |tt| && tt[i'] == ss[i];
      assert tt[i'].characteristics[j].uuid == ch;
    }
    if Lists(ss, service) {
      var i :| 0 <= i < |ss| && ss[i].uuid == service;
      assert ss[i] in multiset(tt);
      var i' :| 0 <= i' < |tt| && tt[i'] == ss[i];
    }
  }

  /**
   * Whether each slot is filled, whether each service was seen, and so the
   * warning, do not depend on the order of the services. (Which characteristic
   * fills a slot does: see ChosenCharacteristicDependsOnOrder.)
   */
  lemma PresenceIsOrderIndependent(ss: seq<Service>, tt: seq<Service>)
    requires multiset(ss) == multiset(tt)
    ensures ScanServices(ss).slots.hr.Some? == ScanServices(tt).slots.hr.Some?
    ensures ScanServices(ss).slots.bat.Some? == ScanServices(tt).slots.bat.Some?
    ensures ScanServices(ss).hrFound == ScanServices(tt).hrFound
    ensures ScanServices(ss).batFound == ScanServices(tt).batFound
    ensures FirstMissing(ScanServices(ss)) == FirstMissing(ScanServices(tt))
  {
    HeartRateSlot(ss); HeartRateSlot(tt);
    BatterySlot(ss); BatterySlot(tt);
    ServiceFlags(ss); ServiceFlags(tt);
    OffersUnderPermutation(ss, tt, HeartRateService, HeartRateMeasurement);
    OffersUnderPermutation(tt, ss, HeartRateService, HeartRateMeasurement);
    OffersUnderPermutation(ss, tt, BatteryService, BatteryLevel);
    OffersUnderPermutation(tt, ss, BatteryService, BatteryLevel);
  }

  /** With two measurement characteristics in one service the later one wins, so swapping them changes the slot. */
  lemma ChosenCharacteristicDependsOnOrder()
    ensures var a, b := Characteristic(HeartRateMeasurement, 1), Characteristic(HeartRateMeasurement, 2);
      && ScanServices([Service(HeartRateService, [a, b])]).slots.hr == Some(b)
      && ScanServices([Service(HeartRateService, [b, a])]).slots.hr == Some(a)
  {
    var a, b := Characteristic(HeartRateMeasurement, 1), Characteristic(HeartRateMeasurement, 2);
    assert [a, b][..1] == [a];
    assert [b, a][..1] == [b];
  }

  /** Heart Rate listed before Battery: the first session start carries no battery characteristic. */
  lemma EarlyStartLacksBattery()
    ensures var h, b := Characteristic(HeartRateMeasurement, 1), Characteristic(BatteryLevel, 2);
      ScanServices([Service(HeartRateService, [h]), Service(BatteryService, [b])]).slots.started ==
        [StartSession(None, Some(h)), StartSession(Some(b), Some(h))]
  {
    var h, b := Characteristic(HeartRateMeasurement, 1), Characteristic(BatteryLevel, 2);
    var ss := [Service(HeartRateService, [h]), Service(BatteryService, [b])];
    assert ss[..1] == [ss[0]];
    assert [h][..0] == [];
    assert [b][..0] == [];
    var empty := Slots(None, None, []);
    assert ScanCharacteristics(empty, HeartRateService, [h]) == VisitCharacteristic(empty, HeartRateService, h);
    var first := [ss[0]];
    assert first[..|first| - 1] == [];
    assert ScanServices(first) == VisitService(ScanServices([]), ss[0]);
    var r1 := ScanServices(first);
    assert r1.slots == Slots(Some(h), None, [StartSession(None, Some(h))]);
    assert ScanCharacteristics(r1.slots, BatteryService, [b]) == VisitCharacteristic(r1.slots, BatteryService, b);
    assert ScanServices(ss).slots == ScanCharacteristics(r1.slots, BatteryService, [b]);
  }
}
