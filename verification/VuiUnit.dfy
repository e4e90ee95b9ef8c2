/** Which NAL units are edited: a start code of three or four bytes or none, a header
    with the type of a sequence parameter set, and up to 1024 bytes behind it. */
module VuiUnit {
  import opened Basics
  import opened VuiEscape
  import opened VuiEdit

  predicate IsPrefix(p: Bytes) {
    p == [] || p == [0, 0, 1] || p == [0, 0, 0, 1]
  }

  // nal_unit_type: five bits of the header's only byte in H.264, section 7.3.1 of ITU-T
  // H.264; six bits behind the first in H.265, section 7.3.1.2 of ITU-T H.265
  function UnitType(header: Bytes, h265: bool): nat
    requires |header| == if h265 then 2 else 1
  {
    if h265 then header[0] as nat / 2 % 64 else header[0] as nat % 32
  }

  function SpsType(h265: bool): nat {
    if h265 then 33 else 7
  }

  lemma StartIs(prefix: Bytes, header: Bytes, body: Bytes, h265: bool)
    requires IsPrefix(prefix) && |header| == (if h265 then 2 else 1) && (prefix == [] ==> header[0] != 0)
    requires body != [] && |prefix + header + body| >= 4
    ensures var nal := prefix + header + body;
            && StartCode(nal) == |prefix| && BodyStart(nal, h265) == |prefix| + |header|
            && nal[|prefix|] == header[0] && nal[BodyStart(nal, h265)..] == body
  {
    var nal := prefix + header + body;
    assert forall i | 0 <= i < |prefix| :: nal[i] == prefix[i];
    assert nal[|prefix|] == header[0];
  }

  /** A unit with a prefix, a header and a body is taken for editing if and only if its
      type is that of a sequence parameter set and its body has 1 to 1024 bytes, and then
      the payload edited is the body's. */
  lemma EditableIs(prefix: Bytes, header: Bytes, body: Bytes, h265: bool)
    requires IsPrefix(prefix) && |header| == (if h265 then 2 else 1) && (prefix == [] ==> header[0] != 0)
    requires body != [] && |prefix + header + body| >= 4
    ensures var nal := prefix + header + body;
            && (Editable(nal, h265) <==> UnitType(header, h265) == SpsType(h265) && |body| <= 1024)
            && BodyStart(nal, h265) <= |nal| && Rbsp(nal, h265) == Unescape(body)
  {
    hide Unescape;
    var nal := prefix + header + body;
    StartIs(prefix, header, body, h265);
    LowFive(header[0]);
    MidSix(header[0]);
    hide BodyStart, StartCode;
  }

  /** Any other unit is refused and left as it is, and so is one of less than four bytes. */
  lemma OthersRefused(prefix: Bytes, header: Bytes, body: Bytes, h265: bool, target: Target)
    requires IsPrefix(prefix) && |header| == (if h265 then 2 else 1) && (prefix == [] ==> header[0] != 0)
    requires body != [] && |prefix + header + body| >= 4
    requires target.Matrix? ==> target.value < 256
    requires UnitType(header, h265) != SpsType(h265) || |body| > 1024
    ensures Edit(prefix + header + body, h265, target) == (-1, prefix + header + body)
    ensures forall nal: Bytes | |nal| < 4 :: Edit(nal, h265, target) == (-1, nal)
  {
    EditableIs(prefix, header, body, h265);
    hide Editable, EditRbsp, Rbsp, Escape, Unescape;
    forall nal: Bytes | |nal| < 4
      ensures Edit(nal, h265, target) == (-1, nal)
    {
      ShortRefused(nal, h265, target);
    }
  }

  lemma ShortRefused(nal: Bytes, h265: bool, target: Target)
    requires |nal| < 4 && (target.Matrix? ==> target.value < 256)
    ensures Edit(nal, h265, target) == (-1, nal)
  {
    hide EditRbsp, Escape, Unescape;
  }
}
