/** The session description served to RTP clients (sections 8.1 and 8.2.1 of
    RFC 6184), and what a client reads out of it. */
module Sdp {
  import opened Bytes
  import opened Text
  import AnnexB

  const DEFAULT_HOST: string := "239.255.0.1"

  /** The two parameter sets, when they can be told apart. */
  function Sets(spspps: seq<byte>): Option<(seq<byte>, seq<byte>)> {
    if |spspps| == 0 then None
    else
      var first := Index(spspps, AnnexB.SC);
      if first < 0 then None
      else
        var tail := spspps[first + 4..];
        var second := Index(tail, AnnexB.SC);
        if second < 0 then None
        else
          var sps, pps := tail[..second], tail[second + 4..];
          if |sps| < 4 || |pps| == 0 then None else Some((sps, pps))
  }

  /** One line of the description, in front of the rest. */
  function Line(text: string, rest: string): string {
    text + "\r" + "\n" + rest
  }

  function Lines(texts: seq<string>): string {
    if texts == [] then "" else Line(texts[0], Lines(texts[1..]))
  }

  /** The lines in front of the format parameters. */
  function Preamble(host: string): seq<string> {
    [ "v=0",
      "o=- 0 0 IN IP4 127.0.0.1",
      "s=TrimUI Cast",
      "c=IN IP4 " + host,
      "t=0 0",
      "a=tool:TrimUI Cast",
      "m=video 5004 RTP/AVP 96",
      "a=rtpmap:96 H264/90000" ]
  }

  function Attrs(sets: string, level: string): string {
    "packetization-mode=1" + ";" + (" " + SPROP + sets + ";" + (" " + PROFILE + level))
  }

  function Format(host: string, sps: seq<byte>, pps: seq<byte>): string
    requires |sps| >= 4
  {
    Lines(Preamble(host) + [FMTP + Attrs(Base64(sps) + "," + Base64(pps), Hex(sps[1..4]))])
  }

  /** `buildRTPSDP`: empty when there are none. */
  function Build(spspps: seq<byte>, rtpHost: string): string {
    var sets := Sets(spspps);
    if sets.None? then ""
    else Format(if rtpHost == "" then DEFAULT_HOST else rtpHost, sets.value.0, sets.value.1)
  }

  const FMTP: string := "a=fmtp:96 "
  const SPROP: string := "sprop-parameter-sets="
  const PROFILE: string := "profile-level-id="

  // ---------------------------------------------------------------- a client

  datatype Params = Params(sps: seq<byte>, pps: seq<byte>, profileLevel: seq<byte>)

  /** The rest of the first piece that starts with `key`, blanks skipped. */
  function Find(pieces: seq<string>, key: string): Option<string> {
    if pieces == [] then None
    else
      var p := if pieces[0] != [] && pieces[0][0] == ' ' then pieces[0][1..] else pieces[0];
      if key <= p then Some(p[|key|..]) else Find(pieces[1..], key)
  }

  function DropCr(line: string): string {
    if line != [] && line[|line| - 1] == '\r' then line[..|line| - 1] else line
  }

  function ParseSets(pair: seq<string>, level: string): Option<Params> {
    if |pair| != 2 then None
    else
      var sps, pps, pl := Unbase64(pair[0]), Unbase64(pair[1]), Unhex(level);
      if sps.None? || pps.None? || pl.None? then None else Some(Params(sps.value, pps.value, pl.value))
  }

  function ParseAttrs(attrs: seq<string>): Option<Params> {
    var sets, level := Find(attrs, SPROP), Find(attrs, PROFILE);
    if sets.None? || level.None? then None else ParseSets(SplitOn(sets.value, ','), level.value)
  }

  /** Read the H.264 format parameters: lines, then attributes at ';', then
      the two parameter sets at ','. */
  function Parse(sdp: string): Option<Params> {
    var line := Find(SplitOn(sdp, '\n'), FMTP);
    if line.None? then None else ParseAttrs(SplitOn(DropCr(line.value), ';'))
  }

  // -------------------------------------------------------------- round trip

  lemma CutAttrs(sets: string, level: string)
    requires ';' !in sets && ';' !in level
    ensures SplitOn(Attrs(sets, level), ';')
         == ["packetization-mode=1", " " + SPROP + sets, " " + PROFILE + level]
  {
    var a0, a1, a2 := "packetization-mode=1", " " + SPROP + sets, " " + PROFILE + level;
    SplitFirst(a0, ';', a1 + ";" + a2);
    SplitFirst(a1, ';', a2);
    SplitNone(a2, ';');
  }

  /** The first piece decides when it carries the key. */
  lemma FindHere(piece: string, key: string, value: string, rest: seq<string>)
    requires piece == " " + key + value && key != [] && key[0] != ' '
    ensures Find([piece] + rest, key) == Some(value)
  {
    assert piece[1..] == key + value;
    assert (key + value)[|key|..] == value;
  }

  lemma FindAttrs(sets: string, level: string)
    ensures var attrs := ["packetization-mode=1", " " + SPROP + sets, " " + PROFILE + level];
            && Find(attrs, SPROP) == Some(sets)
            && Find(attrs, PROFILE) == Some(level)
  {
    var a0, a1, a2 := "packetization-mode=1", " " + SPROP + sets, " " + PROFILE + level;
    var attrs := [a0, a1, a2];
    assert a0[0] != SPROP[0] && a0[1] != PROFILE[1];
    assert a1[1] != PROFILE[0] && a1[1..][0] == a1[1];
    assert attrs[1..] == [a1] + [a2] && attrs[1..][1..] == [a2] + [];
    FindHere(a1, SPROP, sets, [a2]);
    FindHere(a2, PROFILE, level, []);
  }

  predicate Skippable(text: string) {
    '\n' !in text && |text| > 2 && text[0] != ' ' && (text[0] != FMTP[0] || text[2] != FMTP[2])
  }

  /** Earlier lines are passed over. */
  lemma SkipLine(text: string, rest: string)
    requires Skippable(text)
    ensures Parse(Line(text, rest)) == Parse(rest)
  {
    var line := text + "\r";
    SplitFirst(line, '\n', rest);
    assert SplitOn(Line(text, rest), '\n')[1..] == SplitOn(rest, '\n');
    assert line[0] == text[0] && line[2] == text[2];
  }

  lemma {:induction false} SkipLines(texts: seq<string>, last: string)
    requires forall t :: t in texts ==> Skippable(t)
    ensures Parse(Lines(texts + [last])) == Parse(Line(last, ""))
  {
    if texts == [] {
      assert texts + [last] == [last];
      assert Lines([last]) == Line(last, Lines([last][1..]));
    } else {
      assert (texts + [last])[1..] == texts[1..] + [last];
      SkipLine(texts[0], Lines(texts[1..] + [last]));
      SkipLines(texts[1..], last);
    }
  }

  lemma PreambleSkips(host: string)
    requires '\n' !in host
    ensures forall t :: t in Preamble(host) ==> Skippable(t)
  {
  }

  lemma FmtpFound(attrs: string)
    requires '\n' !in attrs
    ensures Find(SplitOn(Line(FMTP + attrs, ""), '\n'), FMTP) == Some(attrs + "\r")
  {
    var line := FMTP + attrs + "\r";
    SplitFirst(line, '\n', "");
    assert line[|FMTP|..] == attrs + "\r";
  }

  lemma CrDropped(attrs: string)
    ensures DropCr(attrs + "\r") == attrs
  {
  }

  lemma LastLineParses(attrs: string)
    requires '\n' !in attrs
    ensures Parse(Line(FMTP + attrs, "")) == ParseAttrs(SplitOn(attrs, ';'))
  {
    FmtpFound(attrs);
    CrDropped(attrs);
  }

  lemma OneLine(sets: string, level: string)
    requires '\n' !in sets && '\n' !in level
    ensures '\n' !in Attrs(sets, level)
  {
  }

  lemma AttrsParse(sets: string, level: string)
    requires ';' !in sets && ';' !in level && '\n' !in sets && '\n' !in level
    ensures Parse(Line(FMTP + Attrs(sets, level), "")) == ParseSets(SplitOn(sets, ','), level)
  {
    OneLine(sets, level);
    LastLineParses(Attrs(sets, level));
    CutAttrs(sets, level);
    FindAttrs(sets, level);
  }

  lemma SetsParse(sps: seq<byte>, pps: seq<byte>, level: seq<byte>)
    ensures ParseSets(SplitOn(Base64(sps) + "," + Base64(pps), ','), Hex(level)) == Some(Params(sps, pps, level))
  {
    Base64Chars(sps);
    Base64Chars(pps);
    SplitFirst(Base64(sps), ',', Base64(pps));
    SplitNone(Base64(pps), ',');
    Base64RoundTrip(sps);
    Base64RoundTrip(pps);
    HexRoundTrip(level);
  }

  lemma FormatParses(host: string, sps: seq<byte>, pps: seq<byte>)
    requires |sps| >= 4
    requires '\n' !in host
    ensures Parse(Format(host, sps, pps)) == Some(Params(sps, pps, sps[1..4]))
  {
    var sets, level := Base64(sps) + "," + Base64(pps), Hex(sps[1..4]);
    Base64Chars(sps);
    Base64Chars(pps);
    HexChars(sps[1..4]);
    PreambleSkips(host);
    SkipLines(Preamble(host), FMTP + Attrs(sets, level));
    AttrsParse(sets, level);
    SetsParse(sps, pps, sps[1..4]);
  }

  /** The two searches are the first two cuts of a receiver. */
  lemma CutTwice(spspps: seq<byte>)
    requires Index(spspps, AnnexB.SC) >= 0
    requires Index(spspps[Index(spspps, AnnexB.SC) + 4..], AnnexB.SC) >= 0
    ensures var tail := spspps[Index(spspps, AnnexB.SC) + 4..];
            var second := Index(tail, AnnexB.SC);
            var parts := AnnexB.Split(spspps);
            && |parts| >= 3
            && parts[1] == tail[..second]
            && parts[2] + AnnexB.Encode(parts[3..]) == tail[second + 4..]
  {
    var tail := spspps[Index(spspps, AnnexB.SC) + 4..];
    var pps := tail[Index(tail, AnnexB.SC) + 4..];
    var parts := AnnexB.Split(spspps);
    assert parts[1..] == AnnexB.Split(tail);
    assert parts[2..] == parts[1..][1..] == AnnexB.Split(pps);
    assert parts[3..] == parts[2..][1..];
    AnnexB.EncodeSplit(pps);
  }

  /** The sets found on arbitrary bytes, told by how a receiver cuts them: the
      SPS is the piece behind the first start code, and everything behind the
      second one, further start codes included, is taken for the PPS. */
  lemma SetsExact(spspps: seq<byte>)
    ensures var parts := AnnexB.Split(spspps);
            Sets(spspps) == if |parts| >= 3 && |parts[1]| >= 4 && parts[2] + AnnexB.Encode(parts[3..]) != []
                            then Some((parts[1], parts[2] + AnnexB.Encode(parts[3..]))) else None
  {
    var first := Index(spspps, AnnexB.SC);
    if first >= 0 && Index(spspps[first + 4..], AnnexB.SC) >= 0 { CutTwice(spspps); }
  }

  /** The whole behaviour of `Build` on arbitrary parameter-set bytes: nothing
      is served, or a client reads back the sets found and the three profile
      bytes of the SPS. */
  lemma BuildExact(spspps: seq<byte>, host: string)
    requires '\n' !in host
    ensures Sets(spspps).None? ==> Build(spspps, host) == ""
    ensures Sets(spspps).Some? ==>
              var (sps, pps) := Sets(spspps).value;
              Parse(Build(spspps, host)) == Some(Params(sps, pps, sps[1..4]))
  {
    var sets := Sets(spspps);
    if sets.Some? {
      FormatParses(if host == "" then DEFAULT_HOST else host, sets.value.0, sets.value.1);
    }
  }

  lemma SetsOfTwo(sps: seq<byte>, pps: seq<byte>)
    requires AnnexB.Clean(sps) && |sps| >= 4 && |pps| > 0
    ensures Sets(AnnexB.SC + sps + AnnexB.SC + pps) == Some((sps, pps))
  {
    var s := AnnexB.SC + sps + AnnexB.SC + pps;
    var tail := sps + AnnexB.SC + pps;
    AnnexB.NoStraddle([], tail);
    assert s == [] + AnnexB.SC + tail;
    AnnexB.NoStraddle(sps, pps);
    assert s[4..] == tail;
    assert tail[..|sps|] == sps && tail[|sps| + 4..] == pps;
  }

  /** The round trip as the stream layout promises it: start code, SPS, start
      code, PPS. The PPS may hold anything. */
  lemma RoundTrip(sps: seq<byte>, pps: seq<byte>, host: string)
    requires AnnexB.Clean(sps) && |sps| >= 4 && |pps| > 0
    requires '\n' !in host
    ensures Parse(Build(AnnexB.SC + sps + AnnexB.SC + pps, host)) == Some(Params(sps, pps, sps[1..4]))
  {
    SetsOfTwo(sps, pps);
    BuildExact(AnnexB.SC + sps + AnnexB.SC + pps, host);
  }

  lemma {:induction false} LinesCut(texts: seq<string>)
    requires forall t :: t in texts ==> '\n' !in t
    ensures SplitOn(Lines(texts), '\n') == seq(|texts|, i requires 0 <= i < |texts| => texts[i] + "\r") + [""]
    decreases |texts|
  {
    if texts == [] {
      assert SplitOn("", '\n') == [""];
    } else {
      LinesCut(texts[1..]);
      assert '\n' !in texts[0] + "\r";
      SplitFirst(texts[0] + "\r", '\n', Lines(texts[1..]));
    }
  }

  /** The lines of the description. */
  function Texts(spspps: seq<byte>, host: string): seq<string>
    requires Sets(spspps).Some?
  {
    var (sps, pps) := Sets(spspps).value;
    Preamble(if host == "" then DEFAULT_HOST else host)
    + [FMTP + Attrs(Base64(sps) + "," + Base64(pps), Hex(sps[1..4]))]
  }

  lemma BuildCut(spspps: seq<byte>, host: string)
    requires '\n' !in host && Sets(spspps).Some?
    ensures var lines, texts := SplitOn(Build(spspps, host), '\n'), Texts(spspps, host);
            && |lines| == 10 == |texts| + 1 && lines[9] == ""
            && forall i :: 0 <= i < 9 ==> lines[i] == texts[i] + "\r"
  {
    var (sps, pps) := Sets(spspps).value;
    Base64Chars(sps);
    Base64Chars(pps);
    HexChars(sps[1..4]);
    PreambleSkips(if host == "" then DEFAULT_HOST else host);
    OneLine(Base64(sps) + "," + Base64(pps), Hex(sps[1..4]));
    LinesCut(Texts(spspps, host));
  }

  /** The format parameters, under the names of section 8.1 of RFC 6184. */
  lemma FmtpExact(sets: string, level: string)
    ensures FMTP + Attrs(sets, level)
         == "a=fmtp:96 " + ("packetization-mode=1" + ";" + (" " + "sprop-parameter-sets=" + sets + ";"
                            + (" " + "profile-level-id=" + level)))
  {
  }

  /** The lines in front of the format parameters: the connection line carries
      the host, the media line port 5004 and payload type 96. */
  lemma PreambleExact(host: string)
    ensures var texts := Preamble(host);
            && |texts| == 8
            && texts[0] == "v=0" && texts[1] == "o=- 0 0 IN IP4 127.0.0.1" && texts[2] == "s=TrimUI Cast"
            && texts[3] == "c=IN IP4 " + host && texts[4] == "t=0 0" && texts[5] == "a=tool:TrimUI Cast"
            && texts[6] == "m=video 5004 RTP/AVP 96" && texts[7] == "a=rtpmap:96 H264/90000"
  {
  }

  /** The nine lines served, and nothing behind the last: the given host, or the
      multicast address exactly when none is given. */
  lemma BuildLines(spspps: seq<byte>, host: string)
    requires '\n' !in host && Sets(spspps).Some?
    ensures var (sps, pps) := Sets(spspps).value;
            var lines := SplitOn(Build(spspps, host), '\n');
            && |lines| == 10 && lines[9] == ""
            && (forall i :: 0 <= i < 8 ==>
                  lines[i] == Preamble(if host == "" then "239.255.0.1" else host)[i] + "\r")
            && lines[8] == FMTP + Attrs(Base64(sps) + "," + Base64(pps), Hex(sps[1..4])) + "\r"
  {
    BuildCut(spspps, host);
  }
}
