/** Converting libusb's next time-out to poll's milliseconds, in the C types of the source. */
module PollTimeout {
  const INT_MAX := 0x7fff_ffff
  const LONG_MAX := 0x7fff_ffff_ffff_ffff

  newtype long = x: int | -0x8000_0000_0000_0000 <= x < 0x8000_0000_0000_0000
  newtype cint = x: int | -0x8000_0000 <= x < 0x8000_0000

  datatype TimeVal = TimeVal(sec: long, usec: long)

  /** The total in milliseconds, rounded up: the smallest whole number not below it. */
  function CeilMs(t: TimeVal): int { t.sec as int * 1000 + (t.usec as int + 999) / 1000 }

  lemma CeilMsRoundsUp(t: TimeVal)
    ensures var us := t.sec as int * 1_000_000 + t.usec as int;
            CeilMs(t) * 1000 >= us && (CeilMs(t) - 1) * 1000 < us
  {
  }

  /** Every intermediate result below is checked to fit the C type it has in the source. */
  function TimevalToTimeoutMs(t: TimeVal): (ms: cint)
    requires t.usec <= (LONG_MAX - 999) as long
    ensures t.sec < 0 || t.usec < 0 ==> ms == 0
    ensures t.sec >= 0 && t.usec >= 0 ==> ms as int == if CeilMs(t) < 0x7fff_ffff then CeilMs(t) else 0x7fff_ffff
  {
    if t.sec < 0 || t.usec < 0 then 0
    else if t.sec > (INT_MAX / 1000) as long then INT_MAX as cint
    else
      var secondsMs: long := t.sec * 1000;
      var usecondsMs: long := (t.usec + 999) / 1000;
      if secondsMs > INT_MAX as long - usecondsMs then INT_MAX as cint
      else (secondsMs + usecondsMs) as cint
  }

  /** No libusb time-out. */
  datatype UsbTimeout = NoTimeout | Next(t: TimeVal)

  function CombinedPollTimeoutMs(x10: cint, usb: UsbTimeout): cint
    requires usb.Next? ==> usb.t.usec <= (LONG_MAX - 999) as long
  {
    if usb == NoTimeout then x10
    else
      var usbMs := TimevalToTimeoutMs(usb.t);
      if x10 < 0 then usbMs
      else if usbMs < x10 then usbMs
      else x10
  }

  /** A wait of `ms` milliseconds does not outlast `limit`; a negative wait has no end. */
  predicate WaitsAtMost(ms: int, limit: nat) { 0 <= ms <= limit }

  /** The combined wait ends by a given time exactly when one of the two waits does. */
  lemma CombinedIsMinimum(x10: cint, usb: UsbTimeout, limit: nat)
    requires usb.Next? ==> 0 <= usb.t.sec && 0 <= usb.t.usec <= (LONG_MAX - 999) as long
    requires limit < 0x7fff_ffff
    ensures WaitsAtMost(CombinedPollTimeoutMs(x10, usb) as int, limit)
       <==> WaitsAtMost(x10 as int, limit) || (usb.Next? && WaitsAtMost(CeilMs(usb.t), limit))
  {
    if usb.Next? { assert CeilMs(usb.t) >= 0; }
  }
}
