/** The line loop of set_remote_sdp in src/pc/peer_connection.cpp: every line is searched for the patterns of
    all rules, so a value inside an SSRC line can set off a rule it was not meant for. */
module RemoteSdp {
  import opened Wrappers
  import opened Bytes
  import opened SdpText
  import opened SsrcCodec
  import opened SsrcRoundTrip

  // Whether rtc::SSLFingerprint::CreateUniqueFromRfc4572 takes this algorithm and this value.
  type Digests = (string, string) -> bool

  // No digest is named by a number or by nothing.
  ghost predicate NamesDigests(fp: Digests) {
    forall alg, value :: fp(alg, value) ==> alg != "" && !IsDigit(alg[0])
  }

  // A media section: its TransportDescription and what its SSRC lines gave.
  datatype Part = Part(ufrag: string, pwd: string, digest: Option<(string, string)>, section: Section)

  datatype Sdp = Sdp(media: string, audio: Part, video: Part)

  const NOTHING := Part("", "", None, Section([], []))
  const START := Sdp("", NOTHING, NOTHING)

  // How reading ends: with a value, with -1, or with the exception that substr throws on a string too short.
  datatype Failure = Refused | Threw
  datatype Reading<+T> = Read(value: T) | Failed(how: Failure)

  // parse_transport_info
  function ParseTransport(p: Part, line: string, fp: Digests): Reading<Part> {
    if Contains(line, "a=ice-ufrag") then
      if GetAttribute(line) == "" then Failed(Refused) else Read(p.(ufrag := GetAttribute(line)))
    else if Contains(line, "a=ice-pwd") then
      if GetAttribute(line) == "" then Failed(Refused) else Read(p.(pwd := GetAttribute(line)))
    else if Contains(line, "a=fingerprint") then
      var items := Tokenize(line, ' ');
      if |items| != 2 then Failed(Refused)
      else if |items[0]| < 14 then Failed(Threw)
      else if !fp(items[0][14..], items[1]) then Failed(Refused)
      else Read(p.(digest := Some((items[0][14..], items[1]))))
    else Read(p)
  }

  // parse_ssrc_info cuts five characters off the first word.
  predicate SsrcThrows(line: string) {
    && Contains(line, "a=ssrc:") && |line| >= 2
    && var words := TokenizeFirst(line[2..], ' ');
       words.Some? && |words.value.0| < 5
  }

  function SsrcFailure(line: string): Failure { if SsrcThrows(line) then Threw else Refused }

  // The media type after the line. (The bundle group is not kept.)
  function MediaAfter(media: string, line: string): Reading<string> {
    if Contains(line, "a=group:BUNDLE") || !Contains(line, "m=") then Read(media)
    else
      var items := Split(line, ' ');
      if |items| <= 2 then Failed(Refused)
      else if |items[0]| < 2 then Failed(Threw)
      else Read(items[0][2..])
  }

  function AudioLine(p: Part, line: string, fp: Digests): Reading<Part> {
    match ParseTransport(p, line, fp)
    case Failed(how) => Failed(how)
    case Read(q) =>
      match ParseSsrc(q.section.infos, line)
      case None => Failed(SsrcFailure(line))
      case Some(infos) => Read(q.(section := q.section.(infos := infos)))
  }

  function VideoLine(p: Part, line: string, fp: Digests): Reading<Part> {
    match ParseTransport(p, line, fp)
    case Failed(how) => Failed(how)
    case Read(q) =>
      match TakeLine(q.section, line)
      case None => Failed(SsrcFailure(line))
      case Some(section) => Read(q.(section := section))
  }

  function ParseLine(s: Sdp, line: string, fp: Digests): Reading<Sdp> {
    match MediaAfter(s.media, line)
    case Failed(how) => Failed(how)
    case Read(media) =>
      if media == "audio" then
        match AudioLine(s.audio, line, fp)
        case Failed(how) => Failed(how)
        case Read(p) => Read(Sdp(media, p, s.video))
      else if media == "video" then
        match VideoLine(s.video, line, fp)
        case Failed(how) => Failed(how)
        case Read(p) => Read(Sdp(media, s.audio, p))
      else Read(s.(media := media))
  }

  // Reading stops at the first line that fails.
  function ParseLines(s: Sdp, lines: seq<string>, fp: Digests): Reading<Sdp> {
    if lines == [] then Read(s)
    else
      var n := |lines| - 1;
      match ParseLines(s, lines[..n], fp)
      case Failed(how) => Failed(how)
      case Read(t) => ParseLine(t, lines[n], fp)
  }

  /** The video tracks of the description. */
  function VideoTracks(s: Sdp): seq<Track> { TracksOf(s.video.section) }

  lemma {:induction false} ParseLinesAppend(s: Sdp, a: seq<string>, b: seq<string>, fp: Digests)
    ensures ParseLines(s, a + b, fp) ==
            match ParseLines(s, a, fp) case Failed(how) => Failed(how) case Read(t) => ParseLines(t, b, fp)
    decreases |b|
  {
    if b == [] {
      assert a + b == a;
    } else {
      var n := |b| - 1;
      ParseLinesAppend(s, a, b[..n], fp);
      assert (a + b)[..|a + b| - 1] == a + b[..n];
      hide ParseLine;
    }
  }

  // ----------------------------------------------------- lines meant for SSRCs only

  // The patterns of the rules other than those for SSRC lines.
  const PATTERNS := {"a=group:BUNDLE", "m=", "a=ice-ufrag", "a=ice-pwd", "a=fingerprint"}

  // Lines that one of these rules acts on.
  predicate OtherRule(line: string) { exists p :: p in PATTERNS && Contains(line, p) }

  predicate Quiet(lines: seq<string>) { forall i :: 0 <= i < |lines| ==> !OtherRule(lines[i]) }

  predicate Lacks(lines: seq<string>, p: string) { forall i :: 0 <= i < |lines| ==> !Contains(lines[i], p) }

  // Nothing in the value that makes set_remote_sdp take the line for something else.
  predicate Clean(v: string) { forall p :: p in PATTERNS ==> !Contains(v, p) }

  predicate TrackLacks(t: Track, p: string) { !Contains(t.id, p) && !Contains(t.cname, p) && !Contains(t.streamId, p) }

  predicate CleanTrack(t: Track) { Clean(t.id) && Clean(t.cname) && Clean(t.streamId) }

  lemma QuietLine(s: Sdp, line: string, fp: Digests)
    requires s.media == "video" && !OtherRule(line)
    ensures ParseLine(s, line, fp) ==
            match TakeLine(s.video.section, line)
            case None => Failed(SsrcFailure(line))
            case Some(t) => Read(s.(video := s.video.(section := t)))
  {
    assert forall p :: p in PATTERNS ==> !Contains(line, p);
    hide Contains, TakeLine;
    RulesOff(line);
  }

  lemma RulesOff(line: string)
    requires forall p :: p in PATTERNS ==> !Contains(line, p)
    ensures !Contains(line, "a=group:BUNDLE") && !Contains(line, "m=")
    ensures !Contains(line, "a=ice-ufrag") && !Contains(line, "a=ice-pwd") && !Contains(line, "a=fingerprint")
  {
    hide Contains;
  }

  // In a video section, quiet lines reach the SSRC parsers alone.
  lemma {:induction false} QuietLines(s: Sdp, lines: seq<string>, fp: Digests)
    requires s.media == "video" && Quiet(lines)
    ensures var r := ParseLines(s, lines, fp);
            match TakeLines(s.video.section, lines)
            case None => r.Failed?
            case Some(t) => r == Read(s.(video := s.video.(section := t)))
    decreases |lines|
  {
    if lines != [] {
      var n := |lines| - 1;
      hide OtherRule, ParseLine, TakeLine;
      QuietLines(s, lines[..n], fp);
      if TakeLines(s.video.section, lines[..n]).Some? {
        var t := s.(video := s.video.(section := TakeLines(s.video.section, lines[..n]).value));
        QuietLine(t, lines[n], fp);
      }
    }
  }

  // A pattern starts with ?=, and with no "a=s".
  lemma PatternShape(p: string)
    requires p in PATTERNS
    ensures |p| >= 2 && p[1] == '=' && (p[0] != 'a' || (|p| > 2 && p[2] != 's'))
    ensures Free(p, ' ')
    ensures Free(p, ':') || (p == "a=group:BUNDLE" && |p| > 7 && p[7] == ':')
  {
  }

  lemma NotThere(rest: string, p: string)
    requires Free(rest, '=') && |rest| > 0 && rest[0] == 's' && p in PATTERNS
    ensures !Contains("a=" + rest, p)
  {
    var line := "a=" + rest;
    PatternShape(p);
    assert line[0] == 'a' && line[2] == 's';
    PatternRule(rest, p);
    hide Contains, Free;
    NoPrefix(p, line, if p[0] != 'a' then 0 else 2);
  }

  lemma GroupLineLacks(g: Group, p: string)
    requires Printable(g) && p in PATTERNS
    ensures !Contains(GroupLine(g), p)
  {
    var rest := "ssrc-group:" + g.semantics + SsrcList(g.ssrcs);
    FreeAppend("ssrc-group:", g.semantics, '=');
    SsrcListFree(g.ssrcs, '=');
    FreeAppend("ssrc-group:" + g.semantics, SsrcList(g.ssrcs), '=');
    assert GroupLine(g) == "a=" + rest;
    hide Contains, Free;
    NotThere(rest, p);
  }

  lemma NoColonNoBundle(v: string)
    requires Free(v, ':')
    ensures !Contains(v, "a=group:BUNDLE")
  {
    forall i | 0 <= i <= |v|
      ensures !("a=group:BUNDLE" <= v[i..])
    {
      assert i + 7 < |v| ==> v[i..][7] == v[i + 7];
    }
  }

  lemma StemPattern(l: string, v: string, p: string)
    requires |l| > 7 && l[..7] == "a=ssrc:" && Free(l[2..], '=') && Free(v, ':') && p in PATTERNS
    ensures Contains(l + [':'] + v, p) <==> Contains(v, p)
  {
    PatternShape(p);
    assert l[0] == l[..7][0] && l[1] == l[..7][1] && l[2] == l[..7][2];
    if Free(p, ':') {
      FoundInAPiece(l, ':', v, p);
      FoundOnlyAtStart(l, p);
      hide Contains, Free;
    } else {
      FoundBeforeColon(l, v, p, 7);
      NoColonNoBundle(v);
      hide Contains, Free;
      NoPrefix(p, l + [':'] + v, 2);
    }
  }

  /** A printed SSRC line sets off exactly the rules whose patterns are in its value. */
  lemma LinePattern(n: U32, attr: string, value: string, p: string)
    requires AttrName(attr) && Free(value, ':') && p in PATTERNS
    ensures Contains(SsrcLine(n, attr, value), p) <==> Contains(value, p)
  {
    DecimalFree(n, '=');
    BodyIsLine(n, attr, value);
    StemFree(Decimal(n), attr, value);
    hide Contains, Free, Stem, Body, SsrcLine;
    StemPattern(Stem(Decimal(n), attr), value, p);
  }

  lemma LacksAppend(a: seq<string>, b: seq<string>, p: string)
    requires Lacks(a, p) && Lacks(b, p)
    ensures Lacks(a + b, p)
  {
    hide Contains;
  }

  lemma {:induction false} GroupLinesLack(gs: seq<Group>, p: string)
    requires p in PATTERNS && forall i :: 0 <= i < |gs| ==> Printable(gs[i])
    ensures Lacks(GroupLines(gs), p)
    decreases |gs|
  {
    if gs != [] {
      var n := |gs| - 1;
      assert Printable(gs[n]);
      GroupLineLacks(gs[n], p);
      hide Contains, GroupLine, Semantics;
      GroupLinesLack(gs[..n], p);
      LacksAppend(GroupLines(gs[..n]), [GroupLine(gs[n])], p);
    }
  }

  lemma FourLinesLack(t: Track, n: U32, p: string)
    requires Plain(t.cname) && Plain(t.streamId) && Plain(t.id) && p in PATTERNS && TrackLacks(t, p)
    ensures Lacks(LinesOfSsrc(t, n), p)
  {
    NamesOk();
    MsidValueOk(t);
    PatternShape(p);
    FoundInAPiece(t.streamId, ' ', t.id, p);
    hide Contains, SsrcLine, AttrName, Free;
    LinePattern(n, "cname", t.cname, p);
    LinePattern(n, "msid", t.streamId + " " + t.id, p);
    LinePattern(n, "mslabel", t.streamId, p);
    LinePattern(n, "label", t.id, p);
  }

  lemma {:induction false} SsrcLinesLack(t: Track, ssrcs: seq<U32>, p: string)
    requires Plain(t.cname) && Plain(t.streamId) && Plain(t.id) && p in PATTERNS && TrackLacks(t, p)
    ensures Lacks(SsrcLines(t, ssrcs), p)
    decreases |ssrcs|
  {
    if ssrcs != [] {
      var n := |ssrcs| - 1;
      hide Contains, SsrcLine, Plain;
      SsrcLinesLack(t, ssrcs[..n], p);
      FourLinesLack(t, ssrcs[n], p);
      LacksAppend(SsrcLines(t, ssrcs[..n]), LinesOfSsrc(t, ssrcs[n]), p);
    }
  }

  lemma TrackLinesLack(t: Track, p: string)
    requires TrackOk(t) && p in PATTERNS && TrackLacks(t, p)
    ensures Lacks(TrackLines(t), p)
  {
    forall i | 0 <= i < |t.groups|
      ensures Printable(t.groups[i])
    {
      assert GroupOk(t, t.groups[i]);
    }
    hide Contains, Plain, Semantics;
    GroupLinesLack(t.groups, p);
    SsrcLinesLack(t, t.ssrcs, p);
    LacksAppend(GroupLines(t.groups), SsrcLines(t, t.ssrcs), p);
  }

  // A pattern that no token contains is in no printed line.
  lemma {:induction false} BuildLinesLack(ts: seq<Track>, p: string)
    requires TracksOk(ts) && p in PATTERNS && forall i :: 0 <= i < |ts| ==> TrackLacks(ts[i], p)
    ensures Lacks(BuildLines(ts), p)
    decreases |ts|
  {
    if ts != [] {
      var n := |ts| - 1;
      FrontOk(ts);
      hide Contains, TrackLines, TrackOk, TrackLacks, TracksOk, Lacks;
      BuildLinesLack(ts[..n], p);
      TrackLinesLack(ts[n], p);
      LacksAppend(BuildLines(ts[..n]), TrackLines(ts[n]), p);
    }
  }

  predicate AllClean(ts: seq<Track>) { forall i :: 0 <= i < |ts| ==> CleanTrack(ts[i]) }

  lemma BuildLinesQuiet(ts: seq<Track>)
    requires TracksOk(ts) && AllClean(ts)
    ensures Quiet(BuildLines(ts))
  {
    hide Contains, BuildLines, TracksOk;
    forall p | p in PATTERNS
      ensures Lacks(BuildLines(ts), p)
    {
      BuildLinesLack(ts, p);
    }
  }

  // --------------------------------------------------------------- lines that go astray

  // The words of an SSRC line without spaces in its value.
  lemma TwoWords(n: U32, attr: string, value: string)
    requires AttrName(attr) && Plain(value)
    ensures var line := SsrcLine(n, attr, value);
      var words := ["a=ssrc:" + Decimal(n), attr + [':'] + value];
      Split(line, ' ') == words && Tokenize(line, ' ') == words
  {
    DecimalFree(n, ' ');
    var first, second := "a=ssrc:" + Decimal(n), attr + [':'] + value;
    FreeAppend("a=ssrc:", Decimal(n), ' ');
    FreeAppend(attr, [':'], ' ');
    FreeAppend(attr + [':'], value, ' ');
    assert SsrcLine(n, attr, value) == first + [' '] + second;
    hide Split, Tokenize, Free, Decimal, SsrcLine;
    SplitFirst(first, ' ', second);
    SplitLast(second, ' ');
  }

  // Between its colons.
  lemma ThreeFields(n: U32, attr: string, value: string)
    requires AttrName(attr) && Plain(value) && value != ""
    ensures GetAttribute(SsrcLine(n, attr, value)) == ""
  {
    DecimalFree(n, ':');
    var middle := Decimal(n) + " " + attr;
    FreeAppend(Decimal(n), " ", ':');
    FreeAppend(Decimal(n) + " ", attr, ':');
    assert SsrcLine(n, attr, value) == "a=ssrc" + [':'] + (middle + [':'] + value);
    assert Free("a=ssrc", ':');
    hide Tokenize, Free, Decimal, SsrcLine;
    SplitFirst("a=ssrc", ':', middle + [':'] + value);
    SplitFirst(middle, ':', value);
    SplitLast(value, ':');
  }

  /** "m=" in the value: the line has two words where a media line needs three, whatever came before. */
  lemma MediaRuleFails(s: Sdp, n: U32, attr: string, value: string, fp: Digests)
    requires AttrName(attr) && Plain(value) && Contains(value, "m=")
    ensures ParseLine(s, SsrcLine(n, attr, value), fp) == Failed(Refused)
  {
    LinePattern(n, attr, value, "m=");
    LinePattern(n, attr, value, "a=group:BUNDLE");
    NoColonNoBundle(value);
    TwoWords(n, attr, value);
    hide Contains, Split, Tokenize, SsrcLine, VideoLine, AudioLine;
  }

  // The first word of the line is too short for the digest rule exactly if the SSRC has six digits or less.
  lemma DigestRuleFails(n: U32, attr: string, value: string, fp: Digests)
    requires AttrName(attr) && Plain(value) && NamesDigests(fp)
    ensures var items := Tokenize(SsrcLine(n, attr, value), ' ');
      && |items| == 2 && (|items[0]| < 14 <==> n < 1_000_000)
      && (|items[0]| < 14 || !fp(items[0][14..], items[1]))
  {
    TwoWords(n, attr, value);
    SixDigits(n);
    var word := "a=ssrc:" + Decimal(n);
    if |word| > 14 {
      assert word[14..][0] == Decimal(n)[7];
      assert IsDigit(Decimal(n)[7]);
    }
    hide Tokenize, SsrcLine, Decimal;
  }

  lemma TransportRejects(p: Part, line: string, fp: Digests)
    requires Contains(line, "a=ice-ufrag") || Contains(line, "a=ice-pwd") || Contains(line, "a=fingerprint")
    requires GetAttribute(line) == ""
    requires var items := Tokenize(line, ' '); |items| == 2 && (|items[0]| < 14 || !fp(items[0][14..], items[1]))
    ensures ParseTransport(p, line, fp) == Failed(
              if !Contains(line, "a=ice-ufrag") && !Contains(line, "a=ice-pwd") && |Tokenize(line, ' ')[0]| < 14
              then Threw else Refused)
  {
    hide Contains, GetAttribute, Tokenize;
  }

  lemma RejectedInVideo(s: Sdp, line: string, fp: Digests)
    requires s.media == "video" && !Contains(line, "m=") && ParseTransport(s.video, line, fp).Failed?
    ensures ParseLine(s, line, fp) == Failed(ParseTransport(s.video, line, fp).how)
  {
    hide Contains, ParseTransport, TakeLine;
  }

  // An unclean value without "m=" has a transport pattern, and so has its line.
  lemma TransportPattern(n: U32, attr: string, value: string)
    requires AttrName(attr) && Free(value, ':') && !Clean(value) && !Contains(value, "m=")
    ensures var line := SsrcLine(n, attr, value);
      && !Contains(line, "m=")
      && (Contains(line, "a=ice-ufrag") || Contains(line, "a=ice-pwd") || Contains(line, "a=fingerprint"))
      && (Contains(line, "a=ice-ufrag") <==> Contains(value, "a=ice-ufrag"))
      && (Contains(line, "a=ice-pwd") <==> Contains(value, "a=ice-pwd"))
  {
    NoColonNoBundle(value);
    hide Contains, SsrcLine, AttrName, Free;
    var p :| p in PATTERNS && Contains(value, p);
    LinePattern(n, attr, value, p);
    LinePattern(n, attr, value, "m=");
    LinePattern(n, attr, value, "a=ice-ufrag");
    LinePattern(n, attr, value, "a=ice-pwd");
  }

  // The digest rule gets the line.
  predicate OnlyDigest(value: string) {
    !Contains(value, "m=") && !Contains(value, "a=ice-ufrag") && !Contains(value, "a=ice-pwd")
  }

  /** Any pattern in the value: inside a video section the line fails. It throws exactly if "a=fingerprint" is the only
      pattern and the SSRC has six digits or less, and is refused otherwise. */
  lemma TransportRuleFails(s: Sdp, n: U32, attr: string, value: string, fp: Digests)
    requires s.media == "video" && NamesDigests(fp)
    requires AttrName(attr) && Plain(value) && !Clean(value)
    ensures ParseLine(s, SsrcLine(n, attr, value), fp) ==
            Failed(if OnlyDigest(value) && n < 1_000_000 then Threw else Refused)
  {
    assert Free(value, ':');
    NotEmpty(value);
    hide Contains, Tokenize, SsrcLine, GetAttribute, ParseLine, ParseTransport, NamesDigests, Clean, Plain, AttrName,
        Free;
    if Contains(value, "m=") {
      MediaRuleFails(s, n, attr, value, fp);
    } else {
      TransportPattern(n, attr, value);
      DigestRuleFails(n, attr, value, fp);
      ThreeFields(n, attr, value);
      TransportRejects(s.video, SsrcLine(n, attr, value), fp);
      RejectedInVideo(s, SsrcLine(n, attr, value), fp);
    }
  }

  lemma NotEmpty(value: string)
    requires !Clean(value)
    ensures value != ""
  {
  }

  // Without a media line the section does not end.
  lemma {:induction false} MediaStays(s: Sdp, lines: seq<string>, fp: Digests)
    requires Lacks(lines, "m=") && ParseLines(s, lines, fp).Read?
    ensures ParseLines(s, lines, fp).value.media == s.media
    decreases |lines|
  {
    if lines != [] {
      hide Contains, VideoLine, AudioLine;
      MediaStays(s, lines[..|lines| - 1], fp);
    }
  }

  lemma {:induction false} FailureStays(s: Sdp, lines: seq<string>, i: nat, fp: Digests)
    requires i < |lines|
    requires ParseLines(s, lines[..i], fp).Read? ==>
            ParseLine(ParseLines(s, lines[..i], fp).value, lines[i], fp).Failed?
    ensures ParseLines(s, lines, fp).Failed?
    decreases |lines|
  {
    var n := |lines| - 1;
    hide ParseLine;
    if i < n {
      assert lines[..n][..i] == lines[..i];
      FailureStays(s, lines[..n], i, fp);
    }
  }

  // The failure of the first lines is the failure of all.
  lemma {:induction false} FirstFailure(s: Sdp, lines: seq<string>, i: nat, fp: Digests)
    requires i <= |lines| && ParseLines(s, lines[..i], fp).Failed?
    ensures ParseLines(s, lines, fp) == ParseLines(s, lines[..i], fp)
    decreases |lines|
  {
    var n := |lines| - 1;
    hide ParseLine;
    if i == |lines| {
      assert lines[..i] == lines;
    } else {
      assert lines[..n][..i] == lines[..i];
      FirstFailure(s, lines[..n], i, fp);
    }
  }

  // ------------------------------------------------------------ where a token is printed

  // Where the lines of the last SSRC stand.
  lemma LastLines(t: Track)
    requires t.ssrcs != []
    ensures var n, ls := t.ssrcs[|t.ssrcs| - 1], TrackLines(t);
      && |ls| >= 4 && ls[|ls| - 4] == SsrcLine(n, "cname", t.cname)
      && ls[|ls| - 2] == SsrcLine(n, "mslabel", t.streamId) && ls[|ls| - 1] == SsrcLine(n, "label", t.id)
  {
    hide SsrcLine, GroupLines;
  }

  lemma {:induction false} TrackOccurs(ts: seq<Track>, k: nat, j: nat) returns (i: nat)
    requires k < |ts| && j < |TrackLines(ts[k])|
    ensures i < |BuildLines(ts)| && BuildLines(ts)[i] == TrackLines(ts[k])[j]
    decreases |ts|
  {
    var n := |ts| - 1;
    hide TrackLines;
    if k == n {
      i := |BuildLines(ts[..n])| + j;
    } else {
      i := TrackOccurs(ts[..n], k, j);
    }
  }

  // Each of its three tokens stands alone as the value of some printed line.
  lemma TokenOccurs(ts: seq<Track>, k: nat, token: string) returns (i: nat, n: U32, attr: string)
    requires k < |ts| && ts[k].ssrcs != [] && token in {ts[k].id, ts[k].cname, ts[k].streamId}
    ensures AttrName(attr) && i < |BuildLines(ts)| && BuildLines(ts)[i] == SsrcLine(n, attr, token)
  {
    var t, ls := ts[k], TrackLines(ts[k]);
    LastLines(t);
    NamesOk();
    hide TrackLines, SsrcLine, BuildLines, AttrName;
    n := t.ssrcs[|t.ssrcs| - 1];
    var j: nat;
    if token == t.id {
      j, attr := |ls| - 1, "label";
    } else if token == t.cname {
      j, attr := |ls| - 4, "cname";
    } else {
      j, attr := |ls| - 2, "mslabel";
    }
    i := TrackOccurs(ts, k, j);
  }

  // ------------------------------------------------------------------------ results

  predicate InVideo(s: Sdp) { s.media == "video" && s.video.section == Section([], []) }

  /** In a video section the lines printed for clean tracks give exactly these tracks, and change nothing
      else of the description. */
  lemma CleanTracksComeBack(s: Sdp, ts: seq<Track>, fp: Digests)
    requires InVideo(s) && TracksOk(ts) && AllClean(ts)
    ensures var r := ParseLines(s, BuildLines(ts), fp);
      && r.Read? && VideoTracks(r.value) == ts
      && r.value == s.(video := s.video.(section := r.value.video.section))
  {
    BuildLinesQuiet(ts);
    ParseAfterBuild(ts);
    hide ParseLines, TakeLines, BuildLines, TracksOf, TracksOk, AllClean, Quiet;
    QuietLines(s, BuildLines(ts), fp);
  }

  lemma MediaTrackFails(s: Sdp, ts: seq<Track>, k: nat, fp: Digests)
    requires TracksOk(ts) && k < |ts| && !TrackLacks(ts[k], "m=")
    ensures ParseLines(s, BuildLines(ts), fp).Failed?
  {
    var t := ts[k];
    assert TrackOk(t);
    var token := if Contains(t.id, "m=") then t.id else if Contains(t.cname, "m=") then t.cname else t.streamId;
    hide Contains, BuildLines, ParseLines, ParseLine, SsrcLine, AttrName, Plain, Apart, GroupOk;
    var i, n, attr := TokenOccurs(ts, k, token);
    var before := ParseLines(s, BuildLines(ts)[..i], fp);
    if before.Read? {
      MediaRuleFails(before.value, n, attr, token, fp);
    }
    FailureStays(s, BuildLines(ts), i, fp);
  }

  lemma TransportTrackFails(s: Sdp, ts: seq<Track>, k: nat, fp: Digests)
    requires s.media == "video" && NamesDigests(fp) && TracksOk(ts) && k < |ts| && !CleanTrack(ts[k])
    requires Lacks(BuildLines(ts), "m=")
    ensures ParseLines(s, BuildLines(ts), fp).Failed?
  {
    var t := ts[k];
    assert TrackOk(t);
    var token := if !Clean(t.id) then t.id else if !Clean(t.cname) then t.cname else t.streamId;
    hide Clean, Contains, BuildLines, ParseLines, ParseLine, SsrcLine, AttrName, Plain, Apart, GroupOk, NamesDigests;
    var i, n, attr := TokenOccurs(ts, k, token);
    var before := ParseLines(s, BuildLines(ts)[..i], fp);
    if before.Read? {
      MediaStays(s, BuildLines(ts)[..i], fp);
      TransportRuleFails(before.value, n, attr, token, fp);
    }
    FailureStays(s, BuildLines(ts), i, fp);
  }

  /** One token that contains a pattern of another rule, and the whole description is refused. */
  lemma UncleanTracksFail(s: Sdp, ts: seq<Track>, fp: Digests)
    requires s.media == "video" && NamesDigests(fp) && TracksOk(ts) && !AllClean(ts)
    ensures ParseLines(s, BuildLines(ts), fp).Failed?
  {
    hide Contains, Clean, BuildLines, ParseLines, TracksOk, NamesDigests, TrackLacks;
    if k :| 0 <= k < |ts| && !TrackLacks(ts[k], "m=") {
      MediaTrackFails(s, ts, k, fp);
    } else {
      var k :| 0 <= k < |ts| && !CleanTrack(ts[k]);
      BuildLinesLack(ts, "m=");
      TransportTrackFails(s, ts, k, fp);
    }
  }

  /** After any lines that leave the parser in a video section without SSRC lines: the tracks printed there
      come back exactly if no id, cname or stream id contains "m=", "a=ice-ufrag", "a=ice-pwd" or
      "a=fingerprint" (nor "a=group:BUNDLE", whose colon they cannot contain). */
  lemma RoundTripExactly(pre: seq<string>, ts: seq<Track>, fp: Digests)
    requires NamesDigests(fp) && TracksOk(ts)
    ensures var p, r := ParseLines(START, pre, fp), ParseLines(START, pre + BuildLines(ts), fp);
      p.Read? && InVideo(p.value) ==>
        && (r.Read? && VideoTracks(r.value) == ts <==> AllClean(ts))
        && (r.Failed? <==> !AllClean(ts))
  {
    hide ParseLines, BuildLines, TracksOk, AllClean, NamesDigests, VideoTracks;
    ParseLinesAppend(START, pre, BuildLines(ts), fp);
    var p := ParseLines(START, pre, fp);
    if p.Read? && InVideo(p.value) {
      if AllClean(ts) {
        CleanTracksComeBack(p.value, ts, fp);
      } else {
        UncleanTracksFail(p.value, ts, fp);
      }
    }
  }

  // -------------------------------------------------------------- a real section

  // The line that opens a video section, and its credentials.
  function VideoHead(port: string, rest: string, ufrag: string, pwd: string): seq<string> {
    ["m=video " + port + " " + rest, "a=ice-ufrag:" + ufrag, "a=ice-pwd:" + pwd]
  }

  // Words without '=' and, but for the last of them, without spaces.
  predicate HeadOk(port: string, rest: string, ufrag: string, pwd: string) {
    && Free(port, ' ') && Free(port, '=') && Free(rest, '=')
    && Free(ufrag, '=') && Free(ufrag, ':') && ufrag != "" && Free(pwd, '=') && Free(pwd, ':') && pwd != ""
  }

  // A line for none of the parsers leaves the section it is in as it was.
  lemma NothingToRead(s: Sdp, line: string, media: string, fp: Digests)
    requires MediaAfter(s.media, line) == Read(media)
    requires !Contains(line, "a=ssrc:") && !Contains(line, "a=ssrc-group:")
    requires !Contains(line, "a=ice-ufrag") && !Contains(line, "a=ice-pwd") && !Contains(line, "a=fingerprint")
    ensures ParseLine(s, line, fp) == Read(s.(media := media))
  {
    hide Contains, MediaAfter;
  }

  lemma VideoWords(port: string, rest: string)
    requires Free(port, ' ')
    ensures var items := Split("m=video " + port + " " + rest, ' '); |items| > 2 && items[0] == "m=video"
  {
    assert "m=video " + port + " " + rest == "m=video" + [' '] + (port + [' '] + rest);
    assert Free("m=video", ' ');
    hide Free, Split;
    SplitFirst("m=video", ' ', port + [' '] + rest);
    SplitFirst(port, ' ', rest);
  }

  lemma VideoTail(port: string, rest: string)
    requires Free(port, '=') && Free(rest, '=')
    ensures Free("video " + port + " " + rest, '=')
    ensures "m=video " + port + " " + rest == "m=" + ("video " + port + " " + rest)
  {
    FreeAppend("video ", port, '=');
    FreeAppend("video " + port, " ", '=');
    FreeAppend("video " + port + " ", rest, '=');
    hide Free;
  }

  lemma TurnsToVideo(media: string, line: string)
    requires Contains(line, "m=") && !Contains(line, "a=group:BUNDLE")
    requires var items := Split(line, ' '); |items| > 2 && items[0] == "m=video"
    ensures MediaAfter(media, line) == Read("video")
  {
    hide Contains, Split;
    assert ("m=video")[2..] == "video";
  }

  lemma MediaLine(s: Sdp, port: string, rest: string, fp: Digests)
    requires Free(port, ' ') && Free(port, '=') && Free(rest, '=')
    ensures ParseLine(s, "m=video " + port + " " + rest, fp) == Read(s.(media := "video"))
  {
    hide Contains, Free, Split, ParseLine, MediaAfter;
    VideoTail(port, rest);
    VideoWords(port, rest);
    var tail := "video " + port + " " + rest;
    var line := "m=video " + port + " " + rest;
    MediaLineRules(tail);
    TurnsToVideo(s.media, line);
    NothingToRead(s, line, "video", fp);
  }

  lemma MediaLineRules(tail: string)
    requires Free(tail, '=')
    ensures var line := "m=" + tail;
      && Contains(line, "m=") && !Contains(line, "a=group:BUNDLE") && !Contains(line, "a=ssrc:") &&
         !Contains(line, "a=ssrc-group:")
      && !Contains(line, "a=ice-ufrag") && !Contains(line, "a=ice-pwd") && !Contains(line, "a=fingerprint")
  {
    var line := "m=" + tail;
    assert line[2..] == tail && line[0] == 'm';
    FoundOnlyAtStart(line, "m=");
    FoundOnlyAtStart(line, "a=group:BUNDLE");
    FoundOnlyAtStart(line, "a=ssrc:");
    FoundOnlyAtStart(line, "a=ssrc-group:");
    FoundOnlyAtStart(line, "a=ice-ufrag");
    FoundOnlyAtStart(line, "a=ice-pwd");
    FoundOnlyAtStart(line, "a=fingerprint");
    hide Contains, Free;
  }

  lemma CredentialRules(rest: string)
    requires Free(rest, '=') && |rest| > 0 && rest[0] == 'i'
    ensures var line := "a=" + rest;
      && !Contains(line, "m=") && !Contains(line, "a=group:BUNDLE") && !Contains(line, "a=ssrc:") &&
         !Contains(line, "a=ssrc-group:")
      && (Contains(line, "a=ice-ufrag") <==> "a=ice-ufrag" <= line) &&
         (Contains(line, "a=ice-pwd") <==> "a=ice-pwd" <= line)
  {
    var line := "a=" + rest;
    assert line[0] == 'a' && line[2] == 'i';
    PatternRule(rest, "m=");
    PatternRule(rest, "a=group:BUNDLE");
    PatternRule(rest, "a=ssrc:");
    PatternRule(rest, "a=ssrc-group:");
    PatternRule(rest, "a=ice-ufrag");
    PatternRule(rest, "a=ice-pwd");
    hide Contains, Free;
    NoPrefix("m=", line, 0);
    NoPrefix("a=group:BUNDLE", line, 2);
    NoPrefix("a=ssrc:", line, 2);
    NoPrefix("a=ssrc-group:", line, 2);
  }

  lemma AttributeOf(name: string, value: string)
    requires Free(name, ':') && Free(value, ':') && name != "" && value != ""
    ensures GetAttribute(name + ":" + value) == value
  {
    SplitFirst(name, ':', value);
    SplitLast(value, ':');
    hide Tokenize;
  }

  // A line for parse_transport_info only.
  lemma TransportOnly(s: Sdp, line: string, fp: Digests)
    requires s.media == "video"
    requires !Contains(line, "m=") && !Contains(line, "a=ssrc:") && !Contains(line, "a=ssrc-group:")
    ensures ParseLine(s, line, fp) ==
            match ParseTransport(s.video, line, fp) case Failed(how) => Failed(how) case Read(p) => Read(s.(video := p))
  {
    hide Contains, ParseTransport;
  }

  lemma UfragLine(s: Sdp, ufrag: string, fp: Digests)
    requires s.media == "video" && Free(ufrag, '=') && Free(ufrag, ':') && ufrag != ""
    ensures ParseLine(s, "a=ice-ufrag:" + ufrag, fp) == Read(s.(video := s.video.(ufrag := ufrag)))
  {
    var rest := "ice-ufrag:" + ufrag;
    var line := "a=ice-ufrag:" + ufrag;
    FreeAppend("ice-ufrag:", ufrag, '=');
    assert Free("a=ice-ufrag", ':');
    hide Contains, Free, GetAttribute, ParseLine;
    assert rest[0] == 'i';
    assert line == "a=" + rest && line == "a=ice-ufrag" + ":" + ufrag;
    CredentialRules(rest);
    AttributeOf("a=ice-ufrag", ufrag);
    assert "a=ice-ufrag" <= line;
    TransportOnly(s, line, fp);
  }

  lemma PwdForm(pwd: string)
    ensures ("ice-pwd:" + pwd)[0] == 'i' && "a=ice-pwd:" + pwd == "a=" + ("ice-pwd:" + pwd) == "a=ice-pwd" + ":" + pwd
    ensures "a=ice-pwd" <= "a=ice-pwd:" + pwd && !("a=ice-ufrag" <= "a=ice-pwd:" + pwd)
  {
    assert ("a=ice-pwd:" + pwd)[6] == 'p';
    NoPrefix("a=ice-ufrag", "a=ice-pwd:" + pwd, 6);
  }

  lemma PwdLine(s: Sdp, pwd: string, fp: Digests)
    requires s.media == "video" && Free(pwd, '=') && Free(pwd, ':') && pwd != ""
    ensures ParseLine(s, "a=ice-pwd:" + pwd, fp) == Read(s.(video := s.video.(pwd := pwd)))
  {
    var rest := "ice-pwd:" + pwd;
    var line := "a=ice-pwd:" + pwd;
    FreeAppend("ice-pwd:", pwd, '=');
    assert Free("a=ice-pwd", ':');
    hide Contains, Free, GetAttribute, ParseLine;
    PwdForm(pwd);
    CredentialRules(rest);
    AttributeOf("a=ice-pwd", pwd);
    TransportOnly(s, line, fp);
  }

  lemma DigestForm(alg: string, value: string)
    ensures ("fingerprint:" + alg + " " + value)[0] == 'f'
    ensures "a=fingerprint:" + alg + " " + value == "a=" + ("fingerprint:" + alg + " " + value)
    ensures "a=fingerprint:" + alg + " " + value == ("a=fingerprint:" + alg) + [' '] + value
    ensures "a=fingerprint" <= "a=fingerprint:" + alg + " " + value
    ensures |"a=fingerprint:" + alg| >= 14 && ("a=fingerprint:" + alg)[14..] == alg
  {
  }

  lemma DigestRules(rest: string)
    requires Free(rest, '=') && |rest| > 0 && rest[0] == 'f'
    ensures var line := "a=" + rest;
      && !Contains(line, "m=") && !Contains(line, "a=ssrc:") && !Contains(line, "a=ssrc-group:")
      && !Contains(line, "a=ice-ufrag") && !Contains(line, "a=ice-pwd")
      && (Contains(line, "a=fingerprint") <==> "a=fingerprint" <= line)
  {
    var line := "a=" + rest;
    assert line[0] == 'a' && line[2] == 'f';
    PatternRule(rest, "m=");
    PatternRule(rest, "a=ssrc:");
    PatternRule(rest, "a=ssrc-group:");
    PatternRule(rest, "a=ice-ufrag");
    PatternRule(rest, "a=ice-pwd");
    PatternRule(rest, "a=fingerprint");
    hide Contains, Free;
    NoPrefix("m=", line, 0);
    NoPrefix("a=ssrc:", line, 2);
    NoPrefix("a=ssrc-group:", line, 2);
    NoPrefix("a=ice-ufrag", line, 2);
    NoPrefix("a=ice-pwd", line, 2);
  }

  lemma DigestWords(alg: string, value: string)
    requires Free(alg, ' ') && Free(value, ' ') && value != ""
    ensures Tokenize("a=fingerprint:" + alg + " " + value, ' ') == ["a=fingerprint:" + alg, value]
  {
    FreeAppend("a=fingerprint:", alg, ' ');
    DigestForm(alg, value);
    hide Tokenize, Free;
    SplitFirst("a=fingerprint:" + alg, ' ', value);
    SplitLast(value, ' ');
  }

  /** The fingerprint line of a video section: the digest is kept exactly if the library takes it. */
  lemma FingerprintLine(s: Sdp, alg: string, value: string, fp: Digests)
    requires s.media == "video" && Free(alg, ' ') && Free(value, ' ') && Free(alg, '=') && Free(value, '=') &&
            value != ""
    ensures ParseLine(s, "a=fingerprint:" + alg + " " + value, fp) ==
            if fp(alg, value) then Read(s.(video := s.video.(digest := Some((alg, value))))) else Failed(Refused)
  {
    var rest, line := "fingerprint:" + alg + " " + value, "a=fingerprint:" + alg + " " + value;
    FreeAppend("fingerprint:", alg, '=');
    FreeAppend("fingerprint:" + alg, " ", '=');
    FreeAppend("fingerprint:" + alg + " ", value, '=');
    hide Contains, Free, GetAttribute, ParseLine, Tokenize;
    DigestForm(alg, value);
    DigestRules(rest);
    DigestWords(alg, value);
    TransportOnly(s, line, fp);
  }

  // ------------------------------------------------------------------ audio

  function AudioTracks(s: Sdp): seq<Track> {
    if s.audio.section.infos == [] then [] else CreateTracks(s.audio.section.infos)
  }

  lemma QuietAudioLine(s: Sdp, line: string, groups: seq<Group>, fp: Digests)
    requires s.media == "audio" && !OtherRule(line)
    ensures var r := ParseLine(s, line, fp);
            match TakeLine(Section(s.audio.section.infos, groups), line)
            case None => r.Failed?
            case Some(t) => r == Read(s.(audio := s.audio.(section := s.audio.section.(infos := t.infos))))
  {
    assert forall p :: p in PATTERNS ==> !Contains(line, p);
    hide Contains, ParseSsrc, ParseGroup;
    RulesOff(line);
  }

  // In an audio section, quiet lines reach parse_ssrc_info alone; group lines are not looked at.
  lemma {:induction false} QuietAudioLines(s: Sdp, lines: seq<string>, fp: Digests)
    requires s.media == "audio" && Quiet(lines)
    ensures var r := ParseLines(s, lines, fp);
            match TakeLines(Section(s.audio.section.infos, []), lines)
            case None => r.Failed?
            case Some(t) => r == Read(s.(audio := s.audio.(section := s.audio.section.(infos := t.infos))))
    decreases |lines|
  {
    if lines != [] {
      var n := |lines| - 1;
      hide OtherRule, ParseLine, TakeLine;
      QuietAudioLines(s, lines[..n], fp);
      var taken := TakeLines(Section(s.audio.section.infos, []), lines[..n]);
      if taken.Some? {
        var t := s.(audio := s.audio.(section := s.audio.section.(infos := taken.value.infos)));
        QuietAudioLine(t, lines[n], taken.value.groups, fp);
      }
    }
  }

  /** In an audio section the lines printed for clean tracks give these tracks without their groups. */
  lemma AudioTracksComeBack(s: Sdp, ts: seq<Track>, fp: Digests)
    requires s.media == "audio" && s.audio.section.infos == [] && TracksOk(ts) && AllClean(ts)
    ensures var r := ParseLines(s, BuildLines(ts), fp);
      r.Read? && AudioTracks(r.value) == BareAll(ts) && r.value.video == s.video
  {
    BuildLinesQuiet(ts);
    ParseBuilt(ts);
    CreateAll(ts);
    if ts != [] {
      SomeInfos(ts);
    }
    hide ParseLines, TakeLines, BuildLines, CreateTracks, TracksOk, AllClean, Quiet, BareAll;
    QuietAudioLines(s, BuildLines(ts), fp);
  }

  /** A video section as it is sent, media line and credentials first: the credentials are read, and the
      tracks come back. */
  lemma VideoSectionComesBack(port: string, rest: string, ufrag: string, pwd: string, ts: seq<Track>, fp: Digests)
    requires HeadOk(port, rest, ufrag, pwd) && TracksOk(ts) && AllClean(ts)
    ensures var r := ParseLines(START, VideoHead(port, rest, ufrag, pwd) + BuildLines(ts), fp);
      && r.Read? && VideoTracks(r.value) == ts
      && r.value.video.ufrag == ufrag && r.value.video.pwd == pwd && r.value.audio == NOTHING
  {
    var head := VideoHead(port, rest, ufrag, pwd);
    assert head[..0] == [] && head[..1] == [head[0]] && head[..2] == [head[0], head[1]];
    var s1 := START.(media := "video");
    var s2 := s1.(video := s1.video.(ufrag := ufrag));
    var s3 := s2.(video := s2.video.(pwd := pwd));
    hide BuildLines, TracksOk, AllClean, ParseLine, VideoTracks;
    MediaLine(START, port, rest, fp);
    UfragLine(s1, ufrag, fp);
    PwdLine(s2, pwd, fp);
    HeadParses(START, s1, s2, s3, head[0], head[1], head[2], fp);
    hide ParseLines;
    ParseLinesAppend(START, head, BuildLines(ts), fp);
    CleanTracksComeBack(s3, ts, fp);
  }

  lemma HeadParses(s: Sdp, s1: Sdp, s2: Sdp, s3: Sdp, a: string, b: string, c: string, fp: Digests)
    requires ParseLine(s, a, fp) == Read(s1) && ParseLine(s1, b, fp) == Read(s2) && ParseLine(s2, c, fp) == Read(s3)
    ensures ParseLines(s, [a, b, c], fp) == Read(s3)
  {
    hide ParseLine;
    assert [a, b, c][..2] == [a, b] && [a, b][..1] == [a] && [a][..0] == [];
    assert ParseLines(s, [a], fp) == Read(s1);
    assert ParseLines(s, [a, b], fp) == Read(s2);
  }

  lemma MsidLine(n: U32, streamId: string, id: string)
    ensures SsrcLine(n, "msid", streamId + " " + id) ==
            ("a=ssrc:" + Decimal(n)) + [' '] + (("msid:" + streamId) + [' '] + id)
  {
    hide Decimal;
  }

  // The words of an msid line.
  lemma ThreeWords(n: U32, streamId: string, id: string)
    requires Plain(streamId) && Plain(id)
    ensures Split(SsrcLine(n, "msid", streamId + " " + id), ' ') == ["a=ssrc:" + Decimal(n), "msid:" + streamId, id]
  {
    DecimalFree(n, ' ');
    FreeAppend("a=ssrc:", Decimal(n), ' ');
    FreeAppend("msid:", streamId, ' ');
    assert Free(id, ' ');
    hide *;
    MsidLine(n, streamId, id);
    JoinedWords("a=ssrc:" + Decimal(n), "msid:" + streamId, id);
  }

  lemma JoinedWords(a: string, b: string, c: string)
    requires Free(a, ' ') && Free(b, ' ') && Free(c, ' ')
    ensures Split(a + [' '] + (b + [' '] + c), ' ') == [a, b, c]
  {
    hide *;
    SplitFirst(a, ' ', b + [' '] + c);
    SplitFirst(b, ' ', c);
    SplitLast(c, ' ');
  }

  lemma LeavesSection(s: Sdp, line: string, media: string, fp: Digests)
    requires MediaAfter(s.media, line) == Read(media) && media != "audio" && media != "video"
    ensures ParseLine(s, line, fp) == Read(s.(media := media))
  {
    hide MediaAfter, AudioLine, VideoLine;
  }

  lemma TurnsAway(media: string, line: string, word: string)
    requires Contains(line, "m=") && !Contains(line, "a=group:BUNDLE")
    requires var items := Split(line, ' '); |items| > 2 && items[0] == "a=" + word
    ensures MediaAfter(media, line) == Read(word)
  {
    hide Contains, Split;
    assert ("a=" + word)[2..] == word;
  }

  lemma MsidPatterns(n: U32, streamId: string, id: string)
    requires Plain(streamId) && Plain(id) && Contains(id, "m=")
    ensures var line := SsrcLine(n, "msid", streamId + " " + id);
      Contains(line, "m=") && !Contains(line, "a=group:BUNDLE")
  {
    NamesOk();
    PatternShape("m=");
    FreeAppend(streamId, " ", ':');
    FreeAppend(streamId + " ", id, ':');
    NoColonNoBundle(streamId + " " + id);
    FoundInAPiece(streamId, ' ', id, "m=");
    hide Contains, Free, SsrcLine, AttrName, Plain;
    LinePattern(n, "msid", streamId + " " + id, "m=");
    LinePattern(n, "msid", streamId + " " + id, "a=group:BUNDLE");
  }

  lemma NoMediaName(d: string)
    ensures "ssrc:" + d != "audio" && "ssrc:" + d != "video" && "a=ssrc:" + d == "a=" + ("ssrc:" + d)
  {
    assert ("ssrc:" + d)[0] == 's';
  }

  /** How a track with "m=" in its id is lost: its msid line, with three words, is taken for a media line and ends
      the section; its label line, with two, makes the parser fail. */
  lemma MediaPatternInId(s: Sdp, n: U32, streamId: string, id: string, fp: Digests)
    requires Plain(streamId) && Plain(id) && Contains(id, "m=")
    ensures ParseLine(s, SsrcLine(n, "msid", streamId + " " + id), fp) == Read(s.(media := "ssrc:" + Decimal(n)))
    ensures ParseLine(s, SsrcLine(n, "label", id), fp) == Failed(Refused)
  {
    hide *;
    MsidPatterns(n, streamId, id);
    ThreeWords(n, streamId, id);
    NoMediaName(Decimal(n));
    NamesOk();
    MediaRuleFails(s, n, "label", id, fp);
    TurnsAway(s.media, SsrcLine(n, "msid", streamId + " " + id), "ssrc:" + Decimal(n));
    LeavesSection(s, SsrcLine(n, "msid", streamId + " " + id), "ssrc:" + Decimal(n), fp);
  }

  const TAGGED := Track("cam=1", [7], [], "c", "s")

  lemma TaggedTrack()
    ensures TracksOk([TAGGED])
  {
    assert Plain("cam=1") && Plain("c") && Plain("s");
    hide Plain;
  }

  lemma TaggedHasMedia()
    ensures !TrackLacks(TAGGED, "m=")
  {
    assert "cam=1"[2..] == "m=1";
    assert Contains("cam=1", "m=");
    hide Contains;
  }

  /** One track that is lost, whatever section it stands in. */
  lemma MediaPatternIsLost(s: Sdp, fp: Digests)
    ensures TracksOk([TAGGED]) && ParseLines(s, BuildLines([TAGGED]), fp).Failed?
  {
    TaggedTrack();
    TaggedHasMedia();
    hide *;
    MediaTrackFails(s, [TAGGED], 0, fp);
  }
}
