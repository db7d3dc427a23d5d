/** Choice of the serial port to open (main.py, `find_port`). The list that
    `list_ports.comports()` would return is a parameter. */
module PortSelection {
  import opened Wrappers
  import opened Text

  /** One entry of the port list; either attribute may be missing (`None`). */
  datatype PortInfo = PortInfo(device: Option<string>, description: Option<string>)

  /** The test inside the search loop: the device name contains `usbmodem`,
      `usbserial` or `cu.usb` (case-sensitive), or the lower-cased description
      contains `usbmodem`, `usbserial` or `arduino`. A missing device or
      description is read as the empty string. */
  predicate LooksLikeArduino(p: PortInfo) {
    var dev := p.device.GetOr("");
    var desc := Lower(p.description.GetOr(""));
    Contains(dev, "usbmodem") || Contains(desc, "usbmodem") ||
    Contains(dev, "usbserial") || Contains(desc, "usbserial") ||
    Contains(desc, "arduino") || Contains(dev, "cu.usb")
  }

  /** A description naming the board in any ASCII case (`Arduino`,
      `ARDUINO`, ...) passes the test. */
  lemma DescriptionAnyCase(p: PortInfo, w: string, i: nat)
    requires p.description.Some? && OccursAt(p.description.value, w, i) && Lower(w) == "arduino"
    ensures LooksLikeArduino(p)
  {
    LowerOccurs(p.description.value, w, i);
  }

  /** The search loop: the device name (or `""` when it is missing) of the
      first port that passes the test, or `None` when no port does. */
  function FirstMatch(ports: seq<PortInfo>): (r: Option<string>)
    ensures r.None? <==> forall i :: 0 <= i < |ports| ==> !LooksLikeArduino(ports[i])
    ensures r.Some? ==> exists i :: 0 <= i < |ports| && LooksLikeArduino(ports[i]) &&
                                    (forall j :: 0 <= j < i ==> !LooksLikeArduino(ports[j])) &&
                                    r.value == ports[i].device.GetOr("")
  {
    if ports == [] then None
    else if LooksLikeArduino(ports[0]) then Some(ports[0].device.GetOr(""))
    else
      var r := FirstMatch(ports[1..]);
      assert forall i :: 1 <= i < |ports| ==> ports[i] == ports[1..][i - 1];
      r
  }

  /** `find_port(preferred)`: a non-empty preferred name wins outright;
      otherwise the first port that looks like an Arduino; otherwise the
      first port's device (which may itself be missing); otherwise `None`. */
  function FindPort(preferred: Option<string>, ports: seq<PortInfo>): (r: Option<string>)
    ensures preferred.Some? && preferred.value != "" ==> r == preferred
    ensures (preferred.None? || preferred.value == "") ==>
              (forall i :: 0 <= i < |ports| && LooksLikeArduino(ports[i]) &&
                           (forall j :: 0 <= j < i ==> !LooksLikeArduino(ports[j])) ==>
                 r == Some(ports[i].device.GetOr("")))
    ensures (preferred.None? || preferred.value == "") &&
            (forall i :: 0 <= i < |ports| ==> !LooksLikeArduino(ports[i])) ==>
              r == (if ports == [] then None else ports[0].device)
    ensures r.Some? ==> r == preferred || exists i :: 0 <= i < |ports| && r.value == ports[i].device.GetOr("")
  {
    if preferred.Some? && preferred.value != "" then preferred
    else
      var m := FirstMatch(ports);
      if m.Some? then m
      else if ports != [] then ports[0].device
      else None
  }
}
