/** The SSRC lines of an SDP (sections 4.1 and 4.2 of RFC 5576): what build_ssrc of
    src/pc/session_description.cpp prints and what set_remote_sdp of
    src/pc/peer_connection.cpp makes of it, on values. */
module SsrcCodec {
  import opened Wrappers
  import opened Bytes
  import opened SdpText

  datatype Group = Group(semantics: string, ssrcs: seq<U32>)

  datatype Track = Track(id: string, ssrcs: seq<U32>, groups: seq<Group>, cname: string, streamId: string)

  // ------------------------------------------------------------------- printing

  function SsrcLine(ssrc: U32, attr: string, value: string): string {
    "a=ssrc:" + Decimal(ssrc) + " " + attr + ":" + value
  }

  function SsrcList(ssrcs: seq<U32>): string {
    if ssrcs == [] then "" else " " + Decimal(ssrcs[0]) + SsrcList(ssrcs[1..])
  }

  function GroupLine(g: Group): string { "a=ssrc-group:" + g.semantics + SsrcList(g.ssrcs) }

  function GroupLines(gs: seq<Group>): seq<string> {
    if gs == [] then []
    else GroupLines(gs[..|gs| - 1]) + (if gs[|gs| - 1].ssrcs == [] then [] else [GroupLine(gs[|gs| - 1])])
  }

  function LinesOfSsrc(t: Track, ssrc: U32): seq<string> {
    [SsrcLine(ssrc, "cname", t.cname), SsrcLine(ssrc, "msid", t.streamId + " " + t.id),
     SsrcLine(ssrc, "mslabel", t.streamId), SsrcLine(ssrc, "label", t.id)]
  }

  function SsrcLines(t: Track, ssrcs: seq<U32>): seq<string> {
    if ssrcs == [] then [] else SsrcLines(t, ssrcs[..|ssrcs| - 1]) + LinesOfSsrc(t, ssrcs[|ssrcs| - 1])
  }

  function TrackLines(t: Track): seq<string> { GroupLines(t.groups) + SsrcLines(t, t.ssrcs) }

  function BuildLines(ts: seq<Track>): seq<string> {
    if ts == [] then [] else BuildLines(ts[..|ts| - 1]) + TrackLines(ts[|ts| - 1])
  }

  // -------------------------------------------------------------------- parsing

  datatype Info = Info(ssrc: U32, cname: string, streamId: string, trackId: string)

  // The index of the entry for ssrc, or |infos|.
  function Find(infos: seq<Info>, ssrc: U32): (i: nat)
    ensures i <= |infos| && (i < |infos| ==> infos[i].ssrc == ssrc)
    ensures forall j :: 0 <= j < i ==> infos[j].ssrc != ssrc
  {
    if infos == [] || infos[0].ssrc == ssrc then 0 else 1 + Find(infos[1..], ssrc)
  }

  function Ensure(infos: seq<Info>, ssrc: U32): (r: seq<Info>)
    ensures Find(infos, ssrc) < |r|
  {
    if Find(infos, ssrc) == |infos| then infos + [Info(ssrc, "", "", "")] else infos
  }

  // The part of parse_ssrc_info after the line has been taken apart.
  function ApplySsrc(infos: seq<Info>, ssrc: U32, attr: string, value: string): Option<seq<Info>> {
    var i := Find(infos, ssrc);
    var r := Ensure(infos, ssrc);
    if attr == "cname" then Some(r[i := r[i].(cname := value)])
    else if attr == "msid" then
      var fields := Split(value, ' ');
      if |fields| > 2 then None
      else if |fields| == 2 then Some(r[i := r[i].(streamId := fields[0], trackId := fields[1])])
      else Some(r[i := r[i].(streamId := fields[0])])
    else Some(r)
  }

  // parse_ssrc_info; None stands for -1.
  function ParseSsrc(infos: seq<Info>, line: string): Option<seq<Info>> {
    if !Contains(line, "a=ssrc:") then Some(infos)
    else if |line| < 2 then None
    else match TokenizeFirst(line[2..], ' ')
      case None => None
      case Some((f1, f2)) =>
        if |f1| < 5 then None
        else match FromString(f1[5..])
          case None => None
          case Some(ssrc) =>
            match TokenizeFirst(f2, ':')
            case None => None
            case Some((attr, value)) => ApplySsrc(infos, ssrc, attr, value)
  }

  function ParseAll(fields: seq<string>): Option<seq<U32>> {
    if fields == [] then Some([])
    else match FromString(fields[0])
      case None => None
      case Some(n) => match ParseAll(fields[1..])
        case None => None
        case Some(rest) => Some([n] + rest)
  }

  function GetAttribute(s: string): string {
    var fields := Tokenize(s, ':');
    if |fields| != 2 then "" else fields[1]
  }

  // parse_ssrc_group_info: its error code is ignored, a bad line adds no group.
  function ParseGroup(groups: seq<Group>, line: string): seq<Group> {
    if !Contains(line, "a=ssrc-group:") || |line| < 2 then groups
    else
      var fields := Split(line[2..], ' ');
      if |fields| < 2 || GetAttribute(fields[0]) == "" then groups
      else match ParseAll(fields[1..])
        case None => groups
        case Some(ssrcs) => groups + [Group(GetAttribute(fields[0]), ssrcs)]
  }

  datatype Section = Section(infos: seq<Info>, groups: seq<Group>)

  // One line of a video section: parse_ssrc_group_info and parse_ssrc_info.
  function TakeLine(s: Section, line: string): Option<Section> {
    match ParseSsrc(s.infos, line)
    case None => None
    case Some(infos) => Some(Section(infos, ParseGroup(s.groups, line)))
  }

  function TakeLines(s: Section, lines: seq<string>): Option<Section> {
    if lines == [] then Some(s)
    else
      var n := |lines| - 1;
      match TakeLines(s, lines[..n])
      case None => None
      case Some(t) => TakeLine(t, lines[n])
  }

  // create_track_from_ssrc_info, one entry.
  function FindTrack(ts: seq<Track>, id: string): (i: nat)
    ensures i <= |ts| && (i < |ts| ==> ts[i].id == id)
    ensures forall j :: 0 <= j < i ==> ts[j].id != id
  {
    if ts == [] || ts[0].id == id then 0 else 1 + FindTrack(ts[1..], id)
  }

  function AddInfo(ts: seq<Track>, info: Info): seq<Track> {
    var i := FindTrack(ts, info.trackId);
    var r := if i == |ts| then ts + [Track(info.trackId, [], [], "", "")] else ts;
    r[i := r[i].(cname := info.cname, streamId := info.streamId, ssrcs := r[i].ssrcs + [info.ssrc])]
  }

  function CreateTracks(infos: seq<Info>): seq<Track> {
    if infos == [] then [] else AddInfo(CreateTracks(infos[..|infos| - 1]), infos[|infos| - 1])
  }

  // A group goes to every track that has its first SSRC.
  function AddGroup(ts: seq<Track>, g: Group): (r: seq<Track>)
    ensures |r| == |ts|
  {
    seq(|ts|, i requires 0 <= i < |ts| =>
      if g.ssrcs != [] && g.ssrcs[0] in ts[i].ssrcs then ts[i].(groups := ts[i].groups + [g]) else ts[i])
  }

  function AddGroups(ts: seq<Track>, gs: seq<Group>): (r: seq<Track>)
    ensures |r| == |ts|
  {
    if gs == [] then ts else AddGroup(AddGroups(ts, gs[..|gs| - 1]), gs[|gs| - 1])
  }

  /** The tracks that set_remote_sdp makes of what the video section held. */
  function TracksOf(s: Section): seq<Track> {
    if s.infos == [] then [] else AddGroups(CreateTracks(s.infos), s.groups)
  }
}
