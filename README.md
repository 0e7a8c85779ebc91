# BLE Cardiac Monitor: device-monitor controller model

This project models the controller logic of the BLE Cardiac Monitor Android app's
device-monitor screen (`DeviceMonitorActivity`). That screen binds to the background
BLE service. It shows connection state, heart rate, RR intervals and battery level.
It resolves the GATT characteristics a monitoring session needs.

- `gatt.dfy` (module `Gatt`): identifiers, characteristics and services as the
  Bluetooth stack reports them. It also defines the calls the activity makes into the BLE service.
  The five identifiers the activity compares against are distinct abstract constants. In the
  Bluetooth SIG assigned numbers, the heart-rate and battery ones are
  0x180D Heart Rate service, 0x2A37 Heart Rate Measurement, 0x180F Battery service and
  0x2A19 Battery Level. A characteristic carries an instance number, so two
  characteristics with the same identifier are different objects when their instance
  numbers differ.
- `discovery.dfy` (module `Discovery`): the service-discovery pass as a pure left fold,
  `ScanServices`. It gives the two slots, the "service seen" flags, the session starts
  requested, and the one missing item a warning names (`FirstMissing`). An independent
  description sits beside it: `Matches` is the wanted characteristics in iteration order,
  `LastWith` is the last one of a kind, and `Snapshots` is the slots at each start.
  Lemmas tie the fold to that description and to plain statements about the input list.
- `device_monitor.dfy` (module `Monitor`): the activity as a class, `DeviceMonitor`.
  Its fields are the connection flag, the two slots, the persisted manually-disconnected
  preference, the device address, the bound/open state of the service and database, and
  the screen fields. Ghost logs record the calls into the BLE service (including the
  `getSupportedGattServices` query, whose answer is a parameter), the dialogs shown
  and the preference writes. `OnServicesDiscovered` keeps the source's loops (the inner ones
  in `ScanHeartRateService` and `ScanBatteryService`)
  and is proved equal to `ScanServices`.
- `wrappers.dfy`: `Option`, standing for Java references that may be null.

## Model

| member | source | states |
|---|---|---|
| Discovery.FirstMissing | app/src/main/java/net/kenevans/android/blecardiacmonitor/DeviceMonitorActivity.java:670-680 | no item is named iff both services were seen and both slots are filled; each of the four items is named iff its own check fails and every earlier check in the chain passed |
| Discovery.LastWithIsLast | app/src/main/java/net/kenevans/android/blecardiacmonitor/DeviceMonitorActivity.java:649-655 | the characteristic chosen for a slot is the last one of its kind: no later element has that identifier |
| Discovery.SnapshotsAt | app/src/main/java/net/kenevans/android/blecardiacmonitor/DeviceMonitorActivity.java:580-583 | one session start per wanted characteristic; the k-th carries the last battery level and last measurement among the first k+1 |
| Discovery.ScanCharacteristicsAgrees | app/src/main/java/net/kenevans/android/blecardiacmonitor/DeviceMonitorActivity.java:649-667 | one inner characteristic loop extends the slots and the start log by exactly the wanted characteristics it meets |
| Discovery.ScanServicesAgrees | app/src/main/java/net/kenevans/android/blecardiacmonitor/DeviceMonitorActivity.java:641-669 | starting from cleared slots, the whole pass equals the independent description: last match per slot, one snapshot per match |
| Discovery.MatchesMembership | app/src/main/java/net/kenevans/android/blecardiacmonitor/DeviceMonitorActivity.java:644-668 | a characteristic is acted on iff some listed service holds it as a wanted pair (measurement in Heart Rate, level in Battery) |
| Discovery.SlotOrigin | app/src/main/java/net/kenevans/android/blecardiacmonitor/DeviceMonitorActivity.java:644-668 | a slot of a kind is filled iff an entry of its service offers that kind, and what fills it comes from such an entry |
| Discovery.HeartRateSlot | app/src/main/java/net/kenevans/android/blecardiacmonitor/DeviceMonitorActivity.java:641-656 | after a pass the heart-rate slot is set iff some Heart Rate service entry holds a measurement; it is the last such one, from a Heart Rate entry; a measurement under another service is ignored |
| Discovery.BatterySlot | app/src/main/java/net/kenevans/android/blecardiacmonitor/DeviceMonitorActivity.java:641-667 | the battery slot likewise: set iff some Battery service entry holds a level; the last such one, from a Battery entry |
| Discovery.SessionStartPerMatch | app/src/main/java/net/kenevans/android/blecardiacmonitor/DeviceMonitorActivity.java:600-613 | exactly one session start per matching characteristic, each with the slots as they stood then, so an early start may carry an empty slot |
| Discovery.ServiceFlags | app/src/main/java/net/kenevans/android/blecardiacmonitor/DeviceMonitorActivity.java:643-658 | the two local flags are true iff the Heart Rate / Battery service is listed |
| Discovery.WarningNamesFirstFailure | app/src/main/java/net/kenevans/android/blecardiacmonitor/DeviceMonitorActivity.java:670-683 | a warning is issued iff a measurement-in-Heart-Rate or a level-in-Battery is missing; it names the first failure in the order Heart Rate service, measurement, Battery service, level |
| Discovery.PresenceIsOrderIndependent | app/src/main/java/net/kenevans/android/blecardiacmonitor/DeviceMonitorActivity.java:644-683 | permuting the services changes neither which slots are filled, nor the flags, nor the warning |
| Discovery.ChosenCharacteristicDependsOnOrder | app/src/main/java/net/kenevans/android/blecardiacmonitor/DeviceMonitorActivity.java:649-655 | with two measurement characteristics, swapping them changes the chosen one (last write wins) |
| Discovery.EarlyStartLacksBattery | app/src/main/java/net/kenevans/android/blecardiacmonitor/DeviceMonitorActivity.java:644-667 | Heart Rate listed before Battery: the first session start passes no battery characteristic |
| Monitor.ShowData | app/src/main/java/net/kenevans/android/blecardiacmonitor/DeviceMonitorActivity.java:497-536 | a null UUID only sets the status notice; a measurement changes only the heart-rate and RR fields; a battery level only the battery field; an absent value shows "not available" |
| Monitor.DeviceMonitor.constructor | app/src/main/java/net/kenevans/android/blecardiacmonitor/DeviceMonitorActivity.java:185-199 | after creation: not connected, slots empty, address and preference as stored, readouts reset |
| Monitor.DeviceMonitor.OnServiceConnected | app/src/main/java/net/kenevans/android/blecardiacmonitor/DeviceMonitorActivity.java:59-92 | a failed initialize reports an error and stops before any connect; otherwise the database is started if open, and connect is called unless manually disconnected; the flag is written false only if connect answers true |
| Monitor.DeviceMonitor.OnServiceDisconnected | app/src/main/java/net/kenevans/android/blecardiacmonitor/DeviceMonitorActivity.java:95-98 | the service reference is dropped |
| Monitor.DeviceMonitor.OnResume | app/src/main/java/net/kenevans/android/blecardiacmonitor/DeviceMonitorActivity.java:214-236 | connect is attempted iff not manually disconnected, an address is set and the service is bound; false is written only when connect answers true; the stored flag never changes |
| Monitor.DeviceMonitor.OnCreateOptionsMenu | app/src/main/java/net/kenevans/android/blecardiacmonitor/DeviceMonitorActivity.java:257-267 | exactly one of connect and disconnect is visible, connect iff not connected |
| Monitor.DeviceMonitor.OnOptionsItemSelected | app/src/main/java/net/kenevans/android/blecardiacmonitor/DeviceMonitorActivity.java:270-303 | connect calls the service and writes false; disconnect calls the service and writes true; with no bound service both fault before writing; other items leave the flag alone |
| Monitor.DeviceMonitor.ReadBatteryLevel | app/src/main/java/net/kenevans/android/blecardiacmonitor/DeviceMonitorActivity.java:439-443 | the battery level is requested only when the service is bound |
| Monitor.DeviceMonitor.SetManuallyDisconnected | app/src/main/java/net/kenevans/android/blecardiacmonitor/DeviceMonitorActivity.java:544-549 | the preference holds the written value and the write is recorded |
| Monitor.DeviceMonitor.ResetDataViews | app/src/main/java/net/kenevans/android/blecardiacmonitor/DeviceMonitorActivity.java:588-593 | battery, heart rate and RR show "not available"; status is cleared |
| Monitor.DeviceMonitor.DisplayData | app/src/main/java/net/kenevans/android/blecardiacmonitor/DeviceMonitorActivity.java:497-536 | the screen changes by the data-available rule `ShowData` |
| Monitor.DeviceMonitor.DisplayError | app/src/main/java/net/kenevans/android/blecardiacmonitor/DeviceMonitorActivity.java:556-572 | a null message sets the null-error notice and reports it; otherwise the message is shown and the status is kept |
| Monitor.DeviceMonitor.StartSession | app/src/main/java/net/kenevans/android/blecardiacmonitor/DeviceMonitorActivity.java:580-583 | the service is asked to start a session with the battery and heart-rate slots as they stand |
| Monitor.DeviceMonitor.OnCharacteristicFound | app/src/main/java/net/kenevans/android/blecardiacmonitor/DeviceMonitorActivity.java:600-613 | a measurement or level is stored in its slot; a measurement, level or custom characteristic triggers one session start; others change nothing |
| Monitor.DeviceMonitor.ScanHeartRateService | app/src/main/java/net/kenevans/android/blecardiacmonitor/DeviceMonitorActivity.java:649-656 | the loop over a Heart Rate service's characteristics leaves the slots and start log as the fold \`ScanCharacteristics\` gives them |
| Monitor.DeviceMonitor.ScanBatteryService | app/src/main/java/net/kenevans/android/blecardiacmonitor/DeviceMonitorActivity.java:660-667 | the same for a Battery service's characteristics |
| Monitor.DeviceMonitor.ReportMissing | app/src/main/java/net/kenevans/android/blecardiacmonitor/DeviceMonitorActivity.java:670-683 | a warning is added iff a flag is false or a slot is empty, and its text is the header plus the label \`FirstMissing\` picks |
| Monitor.DeviceMonitor.OnServicesDiscovered | app/src/main/java/net/kenevans/android/blecardiacmonitor/DeviceMonitorActivity.java:634-684 | a null list changes nothing; otherwise slots, session starts and warning are those of `ScanServices`, and a filled slot holds a characteristic of its kind |
| Monitor.DeviceMonitor.OnReceive | app/src/main/java/net/kenevans/android/blecardiacmonitor/DeviceMonitorActivity.java:115-142 | CONNECTED sets the flag; DISCONNECTED clears it and resets the readouts; discovery logs the `getSupportedGattServices` query and hands its answer to the discovery handler; data and error are dispatched to their handlers; other actions change nothing |
| Monitor.DeviceMonitor.Broadcast | app/src/main/java/net/kenevans/android/blecardiacmonitor/DeviceMonitorActivity.java:620-627 | an intent reaches the receiver iff its action is one of the four registered ones; an ACTION_ERROR intent never does and changes nothing |

## Left out

- Android lifecycle and binding: the feature checks in `onCreate`, `bindService`/`unbindService`, `onPause`, `onDestroy` and receiver registration are host framework plumbing. The constructor models the successful path of `onCreate`.
- SharedPreferences: the stored flag and address are plain fields. The device name is only displayed and is not modelled.
- `getDataDirectory` and the database adapter's open and close are file-system I/O. Whether the database is open is a constructor parameter.
- Dialogs, toasts and `runOnUiThread`: dialogs are entries in the `messages` log, and the connection-state label is set directly. After `invalidateOptionsMenu` the menu is recomputed from the connection flag by `OnCreateOptionsMenu`.
- Navigation to other screens (`selectDevice`, `plot`, `showHelp`, `showSettings`, `startSessionManager`, `onActivityResult`, `onBackPressed`) is UI. Their menu items return Handled and change no modelled state.
- The BLE service (`BCMBleService`) is not part of this model: its GATT connection handling, session state and payload decoding. Calls into it are logged. The answers of `initialize` and `connect` are method parameters. The answer of `startSession`, and of `connect` from the menu, is discarded by the activity and is not modelled.
- Exceptions thrown while parsing the UUID extra, and the catch blocks of `displayData` and `displayError`: the UUID extra is taken as already parsed.
- Monitor.DeviceMonitor.OnReceive: the services-discovered branch dereferences the service reference. A NullPointerException when the service is unbound is not modelled; the list that `getSupportedGattServices` returns is a parameter.
- Order of services: the activity keeps the last matching characteristic, so which characteristic fills a slot depends on the order of the list. Only presence and the warning are order-independent (see `PresenceIsOrderIndependent` and `ChosenCharacteristicDependsOnOrder`).
