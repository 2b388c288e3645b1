/**
 Concrete texts run through the scanner: the optional port group of the
 pattern of main.py:32, under `re.search` (main.py:38).
 */
module Scenarios {
  import opened Chars
  import opened Scanner

  /** A ':' followed by digits after the host run is captured as the port. */
  lemma PortIsTaken()
    ensures CaptureHost("SSTP Hostname:a:1") == Some("a:1")
  {
    var s := "SSTP Hostname:a:1";
    assert s[0..13] == Label;
    assert RunEnd(s, 13, Space) == 13;
    assert RunEnd(s, 14, Space) == 14;
    assert RunEnd(s, 14, Host) == 15;
    assert IsDigit(s[16]);
    assert RunEnd(s, 16, Digit) == 17;
    assert MatchAt(s, 0) == Some(Span(13, 14, 15, 17));
    assert s[14..17] == "a:1";
  }

  /** A ':' not followed by a digit leaves the capture without a port. */
  lemma ColonWithoutDigitsIsNoPort()
    ensures CaptureHost("SSTP Hostname:a:x") == Some("a")
  {
    var s := "SSTP Hostname:a:x";
    assert s[0..13] == Label;
    assert RunEnd(s, 13, Space) == 13;
    assert RunEnd(s, 14, Space) == 14;
    assert RunEnd(s, 14, Host) == 15;
    assert !IsDigit(s[16]);
    assert MatchAt(s, 0) == Some(Span(13, 14, 15, 15));
    assert s[14..15] == "a";
  }
}
