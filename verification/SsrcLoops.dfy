/** The loops themselves: build_ssrc appending to its stream, and the parsers pushing into and
    editing their vectors. */
module SsrcLoops {
  import opened Wrappers
  import opened Bytes
  import opened SdpText
  import opened SsrcCodec
  import opened SsrcRoundTrip
  import opened SsrcText
  import opened RemoteSdp

  lemma TextSnoc(lines: seq<string>, l: string)
    ensures Text(lines + [l]) == Text(lines) + l + "\r\n"
  {
    assert (lines + [l])[..|lines|] == lines;
  }

  method PrintSsrcList(ssrcs: seq<U32>, ss0: string) returns (ss: string)
    ensures ss == ss0 + SsrcList(ssrcs)
  {
    ss := ss0;
    assert ssrcs[0..] == ssrcs;
    for i := 0 to |ssrcs|
      invariant ss + SsrcList(ssrcs[i..]) == ss0 + SsrcList(ssrcs)
    {
      assert ssrcs[i..][1..] == ssrcs[i + 1..];
      hide Decimal;
      var d := Decimal(ssrcs[i]);
      assert ss + (" " + d + SsrcList(ssrcs[i + 1..])) == ss + " " + d + SsrcList(ssrcs[i + 1..]);
      ss := ss + " " + d;
    }
    assert SsrcList(ssrcs[|ssrcs|..]) == "";
  }

  method PrintGroups(groups: seq<Group>, ghost before: seq<string>, ss0: string) returns (ss: string)
    requires ss0 == Text(before)
    ensures ss == Text(before + GroupLines(groups))
  {
    hide Text, GroupLine;
    ss := ss0;
    assert before + GroupLines(groups[..0]) == before;
    for i := 0 to |groups|
      invariant ss == Text(before + GroupLines(groups[..i]))
    {
      var g := groups[i];
      ghost var lines := before + GroupLines(groups[..i]);
      assert groups[..i + 1][..i] == groups[..i];
      if g.ssrcs == [] {
        assert GroupLines(groups[..i + 1]) == GroupLines(groups[..i]);
        continue;
      }
      var line := PrintSsrcList(g.ssrcs, "a=ssrc-group:" + g.semantics);
      assert line == GroupLine(g) by { GroupLineIs(g); }
      TextSnoc(lines, line);
      assert lines + [GroupLine(g)] == before + GroupLines(groups[..i + 1]);
      ss := ss + line + "\r\n";
    }
    assert groups[..|groups|] == groups;
  }

  lemma GroupLineIs(g: Group)
    ensures GroupLine(g) == "a=ssrc-group:" + g.semantics + SsrcList(g.ssrcs)
  {
  }

  method AddSsrcLine(ssrc: U32, attr: string, value: string, ghost before: seq<string>,
      ss0: string) returns (ss: string)
    requires ss0 == Text(before)
    ensures ss == Text(before + [SsrcLine(ssrc, attr, value)])
  {
    hide Text;
    TextSnoc(before, SsrcLine(ssrc, attr, value));
    var line := "a=ssrc:" + Decimal(ssrc) + " " + attr + ":" + value;
    ss := ss0 + line + "\r\n";
  }

  method PrintSsrcs(t: Track, ghost before: seq<string>, ss0: string) returns (ss: string)
    requires ss0 == Text(before)
    ensures ss == Text(before + SsrcLines(t, t.ssrcs))
  {
    hide Text, SsrcLine;
    ss := ss0;
    var msid := t.streamId + " " + t.id;
    assert before + SsrcLines(t, t.ssrcs[..0]) == before;
    for i := 0 to |t.ssrcs|
      invariant ss == Text(before + SsrcLines(t, t.ssrcs[..i]))
    {
      var n := t.ssrcs[i];
      ghost var l0 := before + SsrcLines(t, t.ssrcs[..i]);
      ss := AddSsrcLine(n, "cname", t.cname, l0, ss);
      ghost var l1 := l0 + [SsrcLine(n, "cname", t.cname)];
      ss := AddSsrcLine(n, "msid", msid, l1, ss);
      ghost var l2 := l1 + [SsrcLine(n, "msid", msid)];
      ss := AddSsrcLine(n, "mslabel", t.streamId, l2, ss);
      ghost var l3 := l2 + [SsrcLine(n, "mslabel", t.streamId)];
      ss := AddSsrcLine(n, "label", t.id, l3, ss);
      assert t.ssrcs[..i + 1][..i] == t.ssrcs[..i];
      assert l3 + [SsrcLine(n, "label", t.id)] == before + SsrcLines(t, t.ssrcs[..i + 1]);
    }
    assert t.ssrcs[..|t.ssrcs|] == t.ssrcs;
  }

  /** build_ssrc. */
  method BuildSsrc(tracks: seq<Track>) returns (ss: string)
    ensures ss == Text(BuildLines(tracks))
  {
    hide Text, GroupLines, SsrcLines;
    ss := "";
    EmptyText();
    assert BuildLines(tracks[..0]) == [];
    for i := 0 to |tracks|
      invariant ss == Text(BuildLines(tracks[..i]))
    {
      ghost var before := BuildLines(tracks[..i]);
      ss := PrintGroups(tracks[i].groups, before, ss);
      ss := PrintSsrcs(tracks[i], before + GroupLines(tracks[i].groups), ss);
      assert tracks[..i + 1][..i] == tracks[..i];
      assert before + GroupLines(tracks[i].groups) + SsrcLines(tracks[i], tracks[i].ssrcs) ==
          BuildLines(tracks[..i + 1]);
    }
    assert tracks[..|tracks|] == tracks;
  }

  lemma EmptyText()
    ensures Text([]) == ""
  {
  }

  // The search loop of parse_ssrc_info.
  method FindInfo(infos: seq<Info>, ssrc: U32) returns (i: nat)
    ensures i == Find(infos, ssrc)
  {
    i := 0;
    while i < |infos| && infos[i].ssrc != ssrc
      invariant i <= |infos| && forall j :: 0 <= j < i ==> infos[j].ssrc != ssrc
    {
      i := i + 1;
    }
  }

  method ParseSsrcInfo(infos: seq<Info>, line: string) returns (r: Option<seq<Info>>)
    ensures r == ParseSsrc(infos, line)
  {
    hide Contains, TokenizeFirst, FromString, Split;
    if !Contains(line, "a=ssrc:") {
      return Some(infos);
    }
    if |line| < 2 {
      return None;
    }
    var parts := TokenizeFirst(line[2..], ' ');
    if parts == None || |parts.value.0| < 5 {
      return None;
    }
    var ssrc := FromString(parts.value.0[5..]);
    if ssrc == None {
      return None;
    }
    var attribute := TokenizeFirst(parts.value.1, ':');
    if attribute == None {
      return None;
    }
    var (attr, value) := attribute.value;
    var out := infos;
    var i := FindInfo(infos, ssrc.value);
    if i == |infos| {
      out := out + [Info(ssrc.value, "", "", "")];
    }
    if attr == "cname" {
      out := out[i := out[i].(cname := value)];
    } else if attr == "msid" {
      var fields := Split(value, ' ');
      if |fields| < 1 || |fields| > 2 {
        return None;
      }
      ghost var r0 := out;
      out := out[i := out[i].(streamId := fields[0])];
      if |fields| == 2 {
        out := out[i := out[i].(trackId := fields[1])];
        assert out == r0[i := r0[i].(streamId := fields[0], trackId := fields[1])];
      }
    }
    return Some(out);
  }

  method CreateTrackFromSsrcInfo(infos: seq<Info>) returns (tracks: seq<Track>)
    ensures tracks == CreateTracks(infos)
  {
    tracks := [];
    for k := 0 to |infos|
      invariant tracks == CreateTracks(infos[..k])
    {
      var info := infos[k];
      ghost var before := tracks;
      var i := 0;
      while i < |tracks| && tracks[i].id != info.trackId
        invariant i <= |tracks| && forall j :: 0 <= j < i ==> tracks[j].id != info.trackId
      {
        i := i + 1;
      }
      assert i == FindTrack(tracks, info.trackId);
      if i == |tracks| {
        tracks := tracks + [Track(info.trackId, [], [], "", "")];
      }
      tracks := tracks[i := tracks[i].(cname := info.cname, streamId := info.streamId, ssrcs := tracks[i].ssrcs +
          [info.ssrc])];
      assert tracks == AddInfo(before, info);
      assert infos[..k + 1][..k] == infos[..k];
    }
    assert infos[..|infos|] == infos;
  }

  // The inner loop over tracks for one group.
  method GiveGroup(tracks: seq<Track>, g: Group) returns (r: seq<Track>)
    ensures r == AddGroup(tracks, g)
  {
    r := tracks;
    if g.ssrcs == [] {
      assert AddGroup(tracks, g) == tracks;
      return;
    }
    for i := 0 to |tracks|
      invariant |r| == |tracks|
      invariant forall j :: 0 <= j < i ==> r[j] == AddGroup(tracks, g)[j]
      invariant forall j :: i <= j < |r| ==> r[j] == tracks[j]
    {
      if g.ssrcs[0] in r[i].ssrcs {
        r := r[i := r[i].(groups := r[i].groups + [g])];
      }
    }
  }

  method ParseTransportInfo(p: Part, line: string, fp: Digests) returns (r: Reading<Part>)
    ensures r == ParseTransport(p, line, fp)
  {
    hide Contains, GetAttribute, Tokenize;
    if Contains(line, "a=ice-ufrag") {
      var ufrag := GetAttribute(line);
      if ufrag == "" {
        return Failed(Refused);
      }
      return Read(p.(ufrag := ufrag));
    } else if Contains(line, "a=ice-pwd") {
      var pwd := GetAttribute(line);
      if pwd == "" {
        return Failed(Refused);
      }
      return Read(p.(pwd := pwd));
    } else if Contains(line, "a=fingerprint") {
      var items := Tokenize(line, ' ');
      if |items| != 2 {
        return Failed(Refused);
      }
      if |items[0]| < 14 {
        return Failed(Threw);
      }
      var alg, content := items[0][14..], items[1];
      if !fp(alg, content) {
        return Failed(Refused);
      }
      return Read(p.(digest := Some((alg, content))));
    }
    return Read(p);
  }

  // The body of the line loop of set_remote_sdp.
  method TakeField(s: Sdp, line: string, fp: Digests) returns (r: Reading<Sdp>)
    ensures r == ParseLine(s, line, fp)
  {
    hide ParseTransport, ParseSsrc, ParseGroup, Split, Contains, SsrcFailure;
    var media := s.media;
    if Contains(line, "a=group:BUNDLE") {
    } else if Contains(line, "m=") {
      var items := Split(line, ' ');
      if |items| <= 2 {
        return Failed(Refused);
      }
      if |items[0]| < 2 {
        return Failed(Threw);
      }
      media := items[0][2..];
    }
    if media == "audio" {
      var p := ParseTransportInfo(s.audio, line, fp);
      if p.Failed? {
        return Failed(p.how);
      }
      var infos := ParseSsrcInfo(p.value.section.infos, line);
      if infos == None {
        return Failed(SsrcFailure(line));
      }
      return Read(Sdp(media, p.value.(section := p.value.section.(infos := infos.value)), s.video));
    } else if media == "video" {
      var p := ParseTransportInfo(s.video, line, fp);
      if p.Failed? {
        return Failed(p.how);
      }
      var groups := ParseGroup(p.value.section.groups, line);
      var infos := ParseSsrcInfo(p.value.section.infos, line);
      if infos == None {
        return Failed(SsrcFailure(line));
      }
      return Read(Sdp(media, s.audio, p.value.(section := Section(infos.value, groups))));
    }
    return Read(s.(media := media));
  }

  // The video tracks, then the groups given to them.
  method AssembleVideoTracks(section: Section) returns (tracks: seq<Track>)
    ensures tracks == TracksOf(section)
  {
    hide CreateTracks, AddGroup;
    if section.infos == [] {
      return [];
    }
    tracks := CreateTrackFromSsrcInfo(section.infos);
    ghost var bare := tracks;
    for k := 0 to |section.groups|
      invariant tracks == AddGroups(bare, section.groups[..k])
    {
      assert section.groups[..k + 1][..k] == section.groups[..k];
      tracks := GiveGroup(tracks, section.groups[k]);
    }
    assert section.groups[..|section.groups|] == section.groups;
  }

  /** set_remote_sdp on the lines of a description: all sections, line by line, then the video tracks. */
  method ReadDescription(lines: seq<string>, fp: Digests) returns (r: Reading<Sdp>, tracks: seq<Track>)
    ensures r == ParseLines(START, lines, fp)
    ensures tracks == if r.Read? then VideoTracks(r.value) else []
  {
    hide ParseLine, TracksOf;
    var s := START;
    for i := 0 to |lines|
      invariant ParseLines(START, lines[..i], fp) == Read(s)
    {
      assert lines[..i + 1][..i] == lines[..i];
      var next := TakeField(s, lines[i], fp);
      if next.Failed? {
        FirstFailure(START, lines, i + 1, fp);
        return next, [];
      }
      s := next.value;
    }
    assert lines[..|lines|] == lines;
    r := Read(s);
    tracks := AssembleVideoTracks(s.video.section);
  }
}
