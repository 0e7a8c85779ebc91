/**
 * The device-monitor activity's controller logic: the connection flag and the
 * readouts it keeps, the two characteristic slots it fills when services are
 * discovered, the persisted "manually disconnected" preference and the gating
 * of automatic connects, and the broadcast receiver that dispatches the BLE
 * service's events.
 *
 * The background BLE service is outside the model: every call into it is
 * appended to the ghost log `calls`, and the answers the activity uses (from
 * initialize, connect and getSupportedGattServices) are parameters of the
 * methods that receive them.
 * Dialogs shown through the activity's message helper are appended to the
 * ghost log `messages`; each write of the persisted preference to `flagWrites`.
 */
module Monitor {
  import opened Wrappers
  import opened Gatt
  import opened Discovery

  /** The broadcast actions of the BLE service; UnknownAction stands for any other (or a null) action. */
  datatype Action =
    | GattConnected
    | GattDisconnected
    | GattServicesDiscovered
    | DataAvailable
    | ActionError
    | UnknownAction

  /** A broadcast intent: its action and the extras the handlers read, None when an extra is absent. The UUID extra is taken as already parsed. */
  datatype Intent = Intent(
    action: Action,
    uuid: Option<Uuid>,
    hr: Option<string>,
    rr: Option<string>,
    bat: Option<string>,
    msg: Option<string>)

  /** What a readout field shows: the "not available" resource string or a value sent by the service. */
  datatype Readout = NotAvailable | Shown(text: string)

  /** What the status field shows: a text, or one of the two notices about a null extra. */
  datatype Status = StatusText(text: string) | NullUuidNotice | NullErrorNotice

  /** The four data fields of the screen: battery, heart rate, RR intervals, status. */
  datatype Screen = Screen(bat: Readout, hr: Readout, rr: Readout, status: Status)

  /** What the connection-state field shows. */
  datatype ConnectionLabel = NoLabel | ConnectedLabel | DisconnectedLabel

  /** A dialog shown to the user. */
  datatype Message = Warning(text: string) | Error(text: string)

  /** The options-menu items. */
  datatype MenuItem =
    | ConnectItem
    | DisconnectItem
    | HomeItem
    | SelectDeviceItem
    | SessionManagerItem
    | PlotItem
    | ReadBatteryLevelItem
    | HelpItem
    | SettingsItem
    | OtherItem(id: int)

  /** How an options-menu selection ends: handled, passed to the superclass (which handles none of these), or a null-service fault. */
  datatype MenuOutcome = Handled | NotHandled | NullServiceFault

  /** The screen after its fields are reset. */
  const ResetScreen := Screen(NotAvailable, NotAvailable, NotAvailable, StatusText(""))

  /** The actions the receiver is registered for. ACTION_ERROR is not among them. */
  function GattUpdateIntentFilter(): set<Action>
  {
    {GattConnected, GattDisconnected, GattServicesDiscovered, DataAvailable}
  }

  /** A readout for an extra that may be absent. */
  function ReadoutOf(value: Option<string>): Readout
  {
    if value.None? then NotAvailable else Shown(value.value)
  }

  /**
   * The data-available rule: a missing UUID only sets the status notice; a
   * heart-rate measurement updates the heart-rate and RR fields; a battery level
   * updates the battery field; any other UUID changes nothing. An absent value
   * shows "not available".
   */
  function ShowData(s: Screen, intent: Intent): (r: Screen)
    ensures r.status != s.status ==> intent.uuid.None? && r.status == NullUuidNotice
    ensures r.bat != s.bat ==> intent.uuid == Some(BatteryLevel)
    ensures r.hr != s.hr || r.rr != s.rr ==> intent.uuid == Some(HeartRateMeasurement)
    ensures intent.uuid.None? ==> r.status == NullUuidNotice
    ensures intent.uuid == Some(HeartRateMeasurement) ==>
      && (r.hr == NotAvailable <==> intent.hr.None?)
      && (r.rr == NotAvailable <==> intent.rr.None?)
      && (intent.hr.Some? ==> r.hr == Shown(intent.hr.value))
      && (intent.rr.Some? ==> r.rr == Shown(intent.rr.value))
    ensures intent.uuid == Some(BatteryLevel) ==>
      && (r.bat == NotAvailable <==> intent.bat.None?)
      && (intent.bat.Some? ==> r.bat == Shown(intent.bat.value))
  {
    match intent.uuid
    case None => s.(status := NullUuidNotice)
    case Some(u) =>
      if u == HeartRateMeasurement then s.(hr := ReadoutOf(intent.hr), rr := ReadoutOf(intent.rr))
      else if u == BatteryLevel then s.(bat := ReadoutOf(intent.bat))
      else s
  }

  /** The dialogs a discovery pass adds: none, or one warning naming the first missing item. */
  function WarningFor(m: Option<MissingItem>): seq<Message>
  {
    if m.None? then [] else [Warning(WarningHeader + MissingLabel(m.value))]
  }

  /**
   * The effect of the discovery handler on the slots and the two logs: nothing
   * for a null list; otherwise the slots and session starts of a whole pass,
   * and the warning it calls for.
   */
  ghost predicate DiscoveryEffect(
    services: Option<seq<Service>>,
    hr0: Option<Characteristic>, bat0: Option<Characteristic>, calls0: seq<ServiceCall>, messages0: seq<Message>,
    hr1: Option<Characteristic>, bat1: Option<Characteristic>, calls1: seq<ServiceCall>, messages1: seq<Message>)
  {
    match services
    case None => hr1 == hr0 && bat1 == bat0 && calls1 == calls0 && messages1 == messages0
    case Some(ss) =>
      var r := ScanServices(ss);
      && hr1 == r.slots.hr
      && bat1 == r.slots.bat
      && calls1 == calls0 + r.slots.started
      && messages1 == messages0 + WarningFor(FirstMissing(r))
  }

  class DeviceMonitor {
    var connected: bool
    var charHr: Option<Characteristic>
    var charBat: Option<Characteristic>
    /** The persisted preference: the user disconnected explicitly. */
    var manuallyDisconnected: bool
    var deviceAddress: Option<string>
    /** The background service is bound (its reference is non-null). */
    var serviceBound: bool
    /** The database adapter is open (its reference is non-null). */
    var databaseOpen: bool
    var connectionState: ConnectionLabel
    var bat: Readout
    var hr: Readout
    var rr: Readout
    var status: Status
    ghost var calls: seq<ServiceCall>
    ghost var messages: seq<Message>
    ghost var flagWrites: seq<bool>

    /** A filled slot always holds a characteristic of its own kind. */
    ghost predicate Valid()
      reads this
    {
      && (charHr.Some? ==> charHr.value.uuid == HeartRateMeasurement)
      && (charBat.Some? ==> charBat.value.uuid == BatteryLevel)
    }

    ghost function View(): Screen
      reads this
    {
      Screen(bat, hr, rr, status)
    }

    /** The activity as its creation leaves it: preferences read, readouts reset, the service not yet bound. */
    constructor (address: Option<string>, storedManuallyDisconnected: bool, databaseOpened: bool)
      ensures Valid()
      ensures !connected && charHr.None? && charBat.None?
      ensures deviceAddress == address && manuallyDisconnected == storedManuallyDisconnected
      ensures !serviceBound && databaseOpen == databaseOpened
      ensures connectionState == NoLabel && View() == ResetScreen
      ensures calls == [] && messages == [] && flagWrites == []
    {
      connected := false;
      charHr, charBat := None, None;
      manuallyDisconnected := storedManuallyDisconnected;
      deviceAddress := address;
      serviceBound := false;
      databaseOpen := databaseOpened;
      connectionState := NoLabel;
      bat, hr, rr, status := NotAvailable, NotAvailable, NotAvailable, StatusText("");
      calls, messages, flagWrites := [], [], [];
      new;
      ResetDataViews();
    }

    /** Binding completes: initialize the service and, unless the user disconnected, connect. */
    method OnServiceConnected(initialized: bool, connectAccepted: bool)
      modifies this`serviceBound, this`calls, this`messages, this`manuallyDisconnected, this`flagWrites
      ensures serviceBound
      ensures manuallyDisconnected == old(manuallyDisconnected)
      ensures !initialized ==>
        && calls == old(calls) + [Initialize]
        && messages == old(messages) + [Error("Unable to initialize Bluetooth")]
        && flagWrites == old(flagWrites)
      ensures initialized ==>
        && calls == old(calls) + [Initialize]
                   + (if databaseOpen then [StartDatabase] else [])
                   + (if !old(manuallyDisconnected) then [Connect(deviceAddress)] else [])
        && messages == old(messages)
        && flagWrites == old(flagWrites) + (if !old(manuallyDisconnected) && connectAccepted then [false] else [])
    {
      serviceBound := true;
      calls := calls + [Initialize];
      if !initialized {
        messages := messages + [Error("Unable to initialize Bluetooth")];
        return;
      }
      if databaseOpen {
        calls := calls + [StartDatabase];
      }
      if !manuallyDisconnected {
        calls := calls + [Connect(deviceAddress)];
        if connectAccepted {
          SetManuallyDisconnected(false);
        }
      }
    }

    method OnServiceDisconnected()
      modifies this`serviceBound
      ensures !serviceBound
    {
      serviceBound := false;
    }

    /** Resuming: connect only when the user did not disconnect, a device is chosen and the service is bound. */
    method OnResume(connectAccepted: bool)
      modifies this`calls, this`manuallyDisconnected, this`flagWrites
      ensures manuallyDisconnected == old(manuallyDisconnected)
      ensures var attempt := !old(manuallyDisconnected) && deviceAddress.Some? && serviceBound;
        && calls == old(calls) + (if attempt then [Connect(deviceAddress)] else [])
        && flagWrites == old(flagWrites) + (if attempt && connectAccepted then [false] else [])
    {
      if !manuallyDisconnected && deviceAddress.Some? && serviceBound {
        calls := calls + [Connect(deviceAddress)];
        if connectAccepted {
          SetManuallyDisconnected(false);
        }
      }
    }

    /** Exactly one of connect and disconnect is offered: connect when not connected. */
    method OnCreateOptionsMenu() returns (connectVisible: bool, disconnectVisible: bool)
      ensures connectVisible != disconnectVisible
      ensures connectVisible <==> !connected
    {
      if connected {
        connectVisible, disconnectVisible := false, true;
      } else {
        connectVisible, disconnectVisible := true, false;
      }
    }

    /**
     * Connect clears the persisted flag and disconnect sets it, each after
     * calling the service; with the service unbound either one faults before
     * the flag is written. The other items open screens or dialogs.
     */
    method OnOptionsItemSelected(item: MenuItem) returns (outcome: MenuOutcome)
      modifies this`calls, this`manuallyDisconnected, this`flagWrites
      ensures item == ConnectItem ==>
        if serviceBound then
          && outcome == Handled
          && calls == old(calls) + [Connect(deviceAddress)]
          && !manuallyDisconnected && flagWrites == old(flagWrites) + [false]
        else
          && outcome == NullServiceFault
          && calls == old(calls) && manuallyDisconnected == old(manuallyDisconnected) && flagWrites == old(flagWrites)
      ensures item == DisconnectItem ==>
        if serviceBound then
          && outcome == Handled
          && calls == old(calls) + [Disconnect]
          && manuallyDisconnected && flagWrites == old(flagWrites) + [true]
        else
          && outcome == NullServiceFault
          && calls == old(calls) && manuallyDisconnected == old(manuallyDisconnected) && flagWrites == old(flagWrites)
      ensures item == ReadBatteryLevelItem ==>
        && outcome == Handled
        && calls == old(calls) + (if serviceBound then [Gatt.ReadBatteryLevel] else [])
      ensures item != ConnectItem && item != DisconnectItem ==>
        manuallyDisconnected == old(manuallyDisconnected) && flagWrites == old(flagWrites)
      ensures item != ConnectItem && item != DisconnectItem && item != ReadBatteryLevelItem ==>
        && calls == old(calls)
        && outcome == (if item.OtherItem? then NotHandled else Handled)
    {
      match item
      case ConnectItem =>
        if !serviceBound {
          return NullServiceFault;
        }
        calls := calls + [Connect(deviceAddress)];
        SetManuallyDisconnected(false);
        outcome := Handled;
      case DisconnectItem =>
        if !serviceBound {
          return NullServiceFault;
        }
        calls := calls + [Disconnect];
        SetManuallyDisconnected(true);
        outcome := Handled;
      case ReadBatteryLevelItem =>
        ReadBatteryLevel();
        outcome := Handled;
      case OtherItem(_) =>
        outcome := NotHandled;
      case _ =>
        outcome := Handled;
    }

    method ReadBatteryLevel()
      modifies this`calls
      ensures calls == old(calls) + (if serviceBound then [Gatt.ReadBatteryLevel] else [])
    {
      if serviceBound {
        calls := calls + [Gatt.ReadBatteryLevel];
      }
    }

    method SetManuallyDisconnected(b: bool)
      modifies this`manuallyDisconnected, this`flagWrites
      ensures manuallyDisconnected == b && flagWrites == old(flagWrites) + [b]
    {
      manuallyDisconnected := b;
      flagWrites := flagWrites + [b];
    }

    method ResetDataViews()
      modifies this`bat, this`hr, this`rr, this`status
      ensures View() == ResetScreen
    {
      bat := NotAvailable;
      hr := NotAvailable;
      rr := NotAvailable;
      status := StatusText("");
    }

    /** A data-available broadcast updates the readouts by the data-available rule. */
    method DisplayData(intent: Intent)
      modifies this`bat, this`hr, this`rr, this`status
      ensures View() == ShowData(old(View()), intent)
    {
      if intent.uuid.None? {
        status := NullUuidNotice;
        return;
      }
      var uuid := intent.uuid.value;
      if uuid == HeartRateMeasurement {
        hr := if intent.hr.None? then NotAvailable else Shown(intent.hr.value);
        rr := if intent.rr.None? then NotAvailable else Shown(intent.rr.value);
      } else if uuid == BatteryLevel {
        bat := if intent.bat.None? then NotAvailable else Shown(intent.bat.value);
      }
    }

    /** An error broadcast shows its message; a null message sets the status notice and reports that instead. */
    method DisplayError(msg: Option<string>)
      modifies this`status, this`messages
      ensures msg.None? ==> status == NullErrorNotice && messages == old(messages) + [Error("Received null error message")]
      ensures msg.Some? ==> status == old(status) && messages == old(messages) + [Error(msg.value)]
    {
      if msg.None? {
        status := NullErrorNotice;
        messages := messages + [Error("Received null error message")];
        return;
      }
      messages := messages + [Error(msg.value)];
    }

    /** Ask the service to start a session with the slots as they stand. */
    method StartSession()
      modifies this`calls
      ensures calls == old(calls) + [Gatt.StartSession(charBat, charHr)]
    {
      calls := calls + [Gatt.StartSession(charBat, charHr)];
    }

    /** Store a measurement or level characteristic in its slot and, for the three interesting identifiers, start a session. */
    method OnCharacteristicFound(c: Characteristic)
      requires Valid()
      modifies this`charHr, this`charBat, this`calls
      ensures Valid()
      ensures Slots(charHr, charBat, calls) == CharacteristicFound(Slots(old(charHr), old(charBat), old(calls)), c)
    {
      if c.uuid == HeartRateMeasurement || c.uuid == BatteryLevel || c.uuid == CustomMeasurement {
        if c.uuid == HeartRateMeasurement {
          charHr := Some(c);
        } else if c.uuid == BatteryLevel {
          charBat := Some(c);
        }
        StartSession();
      }
    }

    /**
     * The discovery handler: a null list changes nothing; otherwise both slots
     * are cleared, the Heart Rate and Battery services are scanned for their
     * characteristic, and a warning names the first missing item, if any.
     */
    method OnServicesDiscovered(gattServices: Option<seq<Service>>)
      requires Valid()
      modifies this`charHr, this`charBat, this`calls, this`messages
      ensures Valid()
      ensures DiscoveryEffect(gattServices, old(charHr), old(charBat), old(calls), old(messages),
                              charHr, charBat, calls, messages)
    {
      if gattServices.None? {
        return;
      }
      var services := gattServices.value;
      charBat := None;
      charHr := None;
      var hrFound, batFound := false, false;
      var i := 0;
      while i < |services|
        invariant 0 <= i <= |services|
        invariant Valid()
        invariant charHr == ScanServices(services[..i]).slots.hr
        invariant charBat == ScanServices(services[..i]).slots.bat
        invariant calls == old(calls) + ScanServices(services[..i]).slots.started
        invariant hrFound == ScanServices(services[..i]).hrFound
        invariant batFound == ScanServices(services[..i]).batFound
        invariant messages == old(messages)
      {
        var gattService := services[i];
        assert services[..i + 1][..i] == services[..i];
        if gattService.uuid == HeartRateService {
          hrFound := true;
          ScanHeartRateService(gattService.characteristics, old(calls), ScanServices(services[..i]).slots);
        } else if gattService.uuid == BatteryService {
          batFound := true;
          ScanBatteryService(gattService.characteristics, old(calls), ScanServices(services[..i]).slots);
        }
        i := i + 1;
      }
      assert services[..i] == services;
      HeartRateSlot(services);
      BatterySlot(services);
      ReportMissing(hrFound, batFound);
    }

    /** The inner loop over the Heart Rate service's characteristics: each measurement is stored and reported as found. */
    method ScanHeartRateService(characteristics: seq<Characteristic>, ghost origin: seq<ServiceCall>, ghost before: Slots)
      requires Valid()
      requires charHr == before.hr && charBat == before.bat && calls == origin + before.started
      modifies this`charHr, this`charBat, this`calls
      ensures Valid()
      ensures var s := ScanCharacteristics(before, HeartRateService, characteristics);
        charHr == s.hr && charBat == s.bat && calls == origin + s.started
    {
      var j := 0;
      while j < |characteristics|
        invariant 0 <= j <= |characteristics|
        invariant Valid()
        invariant var s := ScanCharacteristics(before, HeartRateService, characteristics[..j]);
          charHr == s.hr && charBat == s.bat && calls == origin + s.started
      {
        var characteristic := characteristics[j];
        assert characteristics[..j + 1][..j] == characteristics[..j];
        if characteristic.uuid == HeartRateMeasurement {
          charHr := Some(characteristic);
          OnCharacteristicFound(characteristic);
        }
        j := j + 1;
      }
      assert characteristics[..j] == characteristics;
    }

    /** The inner loop over the Battery service's characteristics: each level is stored and reported as found. */
    method ScanBatteryService(characteristics: seq<Characteristic>, ghost origin: seq<ServiceCall>, ghost before: Slots)
      requires Valid()
      requires charHr == before.hr && charBat == before.bat && calls == origin + before.started
      modifies this`charHr, this`charBat, this`calls
      ensures Valid()
      ensures var s := ScanCharacteristics(before, BatteryService, characteristics);
        charHr == s.hr && charBat == s.bat && calls == origin + s.started
    {
      var j := 0;
      while j < |characteristics|
        invariant 0 <= j <= |characteristics|
        invariant Valid()
        invariant var s := ScanCharacteristics(before, BatteryService, characteristics[..j]);
          charHr == s.hr && charBat == s.bat && calls == origin + s.started
      {
        var characteristic := characteristics[j];
        assert characteristics[..j + 1][..j] == characteristics[..j];
        if characteristic.uuid == BatteryLevel {
          charBat := Some(characteristic);
          OnCharacteristicFound(characteristic);
        }
        j := j + 1;
      }
      assert characteristics[..j] == characteristics;
    }

    /** The end of the discovery handler: if anything is missing, one warning naming the first missing item. */
    method ReportMissing(hrFound: bool, batFound: bool)
      modifies this`messages
      ensures messages == old(messages) + WarningFor(FirstMissing(Resolution(Slots(charHr, charBat, []), hrFound, batFound)))
    {
      if !hrFound || !batFound || charHr.None? || charBat.None? {
        var info := WarningHeader;
        if !hrFound {
          info := info + MissingLabel(HeartRateServiceMissing);
        } else if charHr.None? {
          info := info + MissingLabel(HeartRateMeasurementMissing);
        } else if !batFound {
          info := info + MissingLabel(BatteryServiceMissing);
        } else if charBat.None? {
          info := info + MissingLabel(BatteryLevelMissing);
        }
        messages := messages + [Warning(info)];
      }
    }

    /**
     * The receiver's effect for one intent. The services-discovered branch logs
     * its getSupportedGattServices query; `services` is that query's answer.
     */
    twostate predicate Received(intent: Intent, services: Option<seq<Service>>)
      reads this
    {
      && manuallyDisconnected == old(manuallyDisconnected)
      && flagWrites == old(flagWrites)
      && (intent.action != GattServicesDiscovered ==>
            charHr == old(charHr) && charBat == old(charBat) && calls == old(calls))
      && match intent.action
         case GattConnected =>
           && connected && connectionState == ConnectedLabel
           && View() == old(View()) && messages == old(messages)
         case GattDisconnected =>
           && !connected && connectionState == DisconnectedLabel
           && View() == ResetScreen && messages == old(messages)
         case GattServicesDiscovered =>
           && connected == old(connected) && connectionState == old(connectionState)
           && View() == old(View())
           && DiscoveryEffect(services, old(charHr), old(charBat), old(calls) + [GetSupportedGattServices], old(messages),
                              charHr, charBat, calls, messages)
         case DataAvailable =>
           && connected == old(connected) && connectionState == old(connectionState)
           && View() == ShowData(old(View()), intent) && messages == old(messages)
         case ActionError =>
           && connected == old(connected) && connectionState == old(connectionState)
           && bat == old(bat) && hr == old(hr) && rr == old(rr)
           && (intent.msg.None? ==>
                 status == NullErrorNotice && messages == old(messages) + [Error("Received null error message")])
           && (intent.msg.Some? ==>
                 status == old(status) && messages == old(messages) + [Error(intent.msg.value)])
         case UnknownAction =>
           && connected == old(connected) && connectionState == old(connectionState)
           && View() == old(View()) && messages == old(messages)
    }

    /** The broadcast receiver: dispatch on the intent's action. */
    method OnReceive(intent: Intent, services: Option<seq<Service>>)
      requires Valid()
      modifies this`connected, this`connectionState, this`bat, this`hr, this`rr, this`status
      modifies this`charHr, this`charBat, this`calls, this`messages
      ensures Valid()
      ensures Received(intent, services)
    {
      match intent.action
      case GattConnected =>
        connected := true;
        connectionState := ConnectedLabel;
      case GattDisconnected =>
        connected := false;
        ResetDataViews();
        connectionState := DisconnectedLabel;
      case GattServicesDiscovered =>
        calls := calls + [GetSupportedGattServices];
        OnServicesDiscovered(services);
      case DataAvailable =>
        DisplayData(intent);
      case ActionError =>
        DisplayError(intent.msg);
      case UnknownAction =>
    }

    /**
     * A broadcast reaches the receiver only when its action is in the filter
     * the receiver is registered with. ACTION_ERROR is not, so an error
     * broadcast never reaches the receiver's error branch.
     */
    method Broadcast(intent: Intent, services: Option<seq<Service>>) returns (delivered: bool)
      requires Valid()
      modifies this`connected, this`connectionState, this`bat, this`hr, this`rr, this`status
      modifies this`charHr, this`charBat, this`calls, this`messages
      ensures Valid()
      ensures delivered <==> intent.action in GattUpdateIntentFilter()
      ensures intent.action == ActionError ==> !delivered
      ensures delivered ==> Received(intent, services)
      ensures !delivered ==> unchanged(this)
    {
      delivered := intent.action in GattUpdateIntentFilter();
      if delivered {
        OnReceive(intent, services);
      }
    }
  }
}
