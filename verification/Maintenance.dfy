/** Maintenance windows, shared by the SLA reports and the alert engine. */
module Maintenance {
  import opened Options

  /** A row of the maintenance table; without device and check it applies to everything. */
  datatype Window = Window(device: Option<int>, check: Option<int>, startsAt: int, endsAt: int)

  predicate AppliesTo(w: Window, device: Option<int>, check: Option<int>) {
    || (w.device == None && w.check == None)
    || (device != None && w.device == device)
    || (check != None && w.check == check)
  }

  /** Some window that is open at `now` applies. */
  predicate Held(windows: seq<Window>, now: int, device: Option<int>, check: Option<int>) {
    exists i :: 0 <= i < |windows| && windows[i].startsAt <= now < windows[i].endsAt && AppliesTo(windows[i], device, check)
  }

  /** A window holds everything at its ticks, or what belongs to its device, or its check; `endsAt` is not included. */
  lemma WindowHolds(windows: seq<Window>, w: Window, now: int, device: Option<int>, check: Option<int>)
    requires w in windows && w.startsAt <= now < w.endsAt
    ensures w.device == None && w.check == None ==> Held(windows, now, device, check)
    ensures w.device.Some? && device == w.device ==> Held(windows, now, device, check)
    ensures w.check.Some? && check == w.check ==> Held(windows, now, device, check)
  {
    var i :| 0 <= i < |windows| && windows[i] == w;
    assert AppliesTo(windows[i], device, check) ==> Held(windows, now, device, check);
  }

  /** A window that is not open, or is for other devices and checks only, holds nothing more. */
  lemma OtherWindow(windows: seq<Window>, w: Window, now: int, device: Option<int>, check: Option<int>)
    requires || now < w.startsAt || w.endsAt <= now
             || ((w.device.Some? || w.check.Some?) && (w.device.Some? ==> device != w.device)
                 && (w.check.Some? ==> check != w.check))
    ensures Held(windows + [w], now, device, check) <==> Held(windows, now, device, check)
  {
    var more := windows + [w];
    if Held(windows, now, device, check) {
      var i :| 0 <= i < |windows| && windows[i].startsAt <= now < windows[i].endsAt && AppliesTo(windows[i], device, check);
      assert more[i] == windows[i];
    }
  }
}
