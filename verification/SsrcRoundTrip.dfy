/** Parsing what build_ssrc prints gives the tracks back. */
module SsrcRoundTrip {
  import opened Wrappers
  import opened Bytes
  import opened SdpText
  import opened SsrcCodec

  // No delimiter of the printed lines.
  predicate Plain(s: string) { Free(s, ' ') && Free(s, ':') && Free(s, '\r') && Free(s, '\n') }

  // RFC 5576 semantics are plain names.
  predicate Semantics(s: string) { Plain(s) && Free(s, '=') }

  predicate GroupOk(t: Track, g: Group) {
    Semantics(g.semantics) && g.semantics != "" && g.ssrcs != [] && g.ssrcs[0] in t.ssrcs
  }

  predicate TrackOk(t: Track) {
    && Plain(t.id) && Plain(t.cname) && Plain(t.streamId)
    && t.ssrcs != [] && (forall i, j :: 0 <= i < j < |t.ssrcs| ==> t.ssrcs[i] != t.ssrcs[j])
    && forall i :: 0 <= i < |t.groups| ==> GroupOk(t, t.groups[i])
  }

  predicate Apart(t: Track, u: Track) { t.id != u.id && forall n :: n in t.ssrcs ==> n !in u.ssrcs }

  /** At least one SSRC each, ids and SSRCs distinct throughout, tokens without delimiters, and every
      group led by an SSRC of its own track. */
  predicate TracksOk(ts: seq<Track>) {
    && (forall i :: 0 <= i < |ts| ==> TrackOk(ts[i]))
    && (forall i, j :: 0 <= i < j < |ts| ==> Apart(ts[i], ts[j]))
  }

  // -------------------------------------------------------------------- one line

  lemma FreeAppend(a: string, b: string, c: char)
    requires Free(a, c) && Free(b, c)
    ensures Free(a + b, c)
  {
  }

  // A line "a=" + rest with no other '=' meets only the rules whose pattern it starts with.
  lemma PatternRule(rest: string, p: string)
    requires Free(rest, '=') && |p| >= 2 && p[1] == '='
    ensures Contains("a=" + rest, p) <==> p <= "a=" + rest
  {
    assert ("a=" + rest)[2..] == rest;
    FoundOnlyAtStart("a=" + rest, p);
  }

  // Two strings that differ at k: the first is no prefix of the second.
  lemma NoPrefix(p: string, line: string, k: nat)
    requires k < |p| && k < |line| && p[k] != line[k]
    ensures !(p <= line)
  {
  }

  // An attribute name as add_ssrc_line gets it.
  predicate AttrName(a: string) { Free(a, ' ') && Free(a, ':') && Free(a, '=') && a != "" }

  predicate ValueOk(v: string) { Free(v, ':') }

  // The line without its "a=", for the digits d of the SSRC.
  function Body(d: string, attr: string, value: string): string { ("ssrc:" + d) + [' '] + (attr + [':'] + value) }

  lemma BodyIsLine(n: U32, attr: string, value: string)
    ensures SsrcLine(n, attr, value) == "a=" + Body(Decimal(n), attr, value)
  {
    hide Decimal;
  }

  // The line up to the colon before its value.
  function Stem(d: string, attr: string): string { "a=" + (("ssrc:" + d) + [' '] + attr) }

  lemma StemFree(d: string, attr: string, value: string)
    requires Free(d, '=') && AttrName(attr)
    ensures "a=" + Body(d, attr, value) == Stem(d, attr) + [':'] + value
    ensures |Stem(d, attr)| > 7 && Stem(d, attr)[..7] == "a=ssrc:" && Free(Stem(d, attr)[2..], '=')
  {
    FreeAppend("ssrc:", d, '=');
    FreeAppend("ssrc:" + d, [' '], '=');
    FreeAppend(("ssrc:" + d) + [' '], attr, '=');
    assert Stem(d, attr)[2..] == ("ssrc:" + d) + [' '] + attr;
    hide Free;
  }

  lemma BodyTokens(d: string, attr: string, value: string)
    requires Free(d, ' ') && AttrName(attr) && ValueOk(value)
    ensures TokenizeFirst(Body(d, attr, value), ' ') == Some(("ssrc:" + d, attr + [':'] + value))
    ensures TokenizeFirst(attr + [':'] + value, ':') == Some((attr, value))
  {
    FreeAppend("ssrc:", d, ' ');
    assert attr[0] != ' ';
    assert value != "" ==> value[0] != ':';
    hide Free, TokenizeFirst;
    TokenizeFirstAt("ssrc:" + d, ' ', attr + [':'] + value);
    TokenizeFirstAt(attr, ':', value);
  }

  lemma StemRules(l: string, v: string)
    requires |l| > 7 && l[..7] == "a=ssrc:" && Free(l[2..], '=') && Free(v, ':')
    ensures var line := l + [':'] + v; Contains(line, "a=ssrc:") && !Contains(line, "a=ssrc-group:")
  {
    var line := l + [':'] + v;
    assert l[0] == l[..7][0] && l[1] == l[..7][1] && l[6] == l[..7][6];
    FoundBeforeColon(l, v, "a=ssrc:", 6);
    FoundBeforeColon(l, v, "a=ssrc-group:", 12);
    hide Contains, Free;
    assert line[..7] == l[..7];
    NoPrefix("a=ssrc-group:", line, 6);
  }

  lemma LineRules(d: string, attr: string, value: string)
    requires Free(d, '=') && AttrName(attr) && Free(value, ':')
    ensures var line := "a=" + Body(d, attr, value);
      Contains(line, "a=ssrc:") && !Contains(line, "a=ssrc-group:") && line[2..] == Body(d, attr, value)
  {
    StemFree(d, attr, value);
    hide Contains, Free, Stem, Body;
    StemRules(Stem(d, attr), value);
  }

  // What TakeLine does with such a line.
  lemma ParseBody(s: Section, n: U32, d: string, attr: string, value: string, line: string)
    requires |line| >= 2 && Contains(line, "a=ssrc:") && !Contains(line, "a=ssrc-group:")
    requires TokenizeFirst(line[2..], ' ') == Some(("ssrc:" + d, attr + [':'] + value))
    requires TokenizeFirst(attr + [':'] + value, ':') == Some((attr, value))
    requires FromString(d) == Some(n)
    ensures TakeLine(s, line) ==
            match ApplySsrc(s.infos, n, attr, value)
            case None => None
            case Some(infos) => Some(Section(infos, s.groups))
  {
    hide Contains, TokenizeFirst, FromString, ApplySsrc;
    assert ("ssrc:" + d)[5..] == d;
  }

  /** An SSRC line is taken apart into exactly the SSRC, the attribute and the value printed. */
  lemma ParseSsrcLine(s: Section, n: U32, attr: string, value: string)
    requires AttrName(attr) && ValueOk(value)
    ensures TakeLine(s, SsrcLine(n, attr, value)) ==
            match ApplySsrc(s.infos, n, attr, value)
            case None => None
            case Some(infos) => Some(Section(infos, s.groups))
  {
    DecimalFree(n, ' ');
    DecimalFree(n, '=');
    assert Free(value, ':');
    hide *;
    BodyIsLine(n, attr, value);
    BodyTokens(Decimal(n), attr, value);
    FromDecimal(n);
    LineRules(Decimal(n), attr, value);
    ParseBody(s, n, Decimal(n), attr, value, SsrcLine(n, attr, value));
  }

  // ------------------------------------------------------------------- group line

  function Decimals(ssrcs: seq<U32>): seq<string> {
    if ssrcs == [] then [] else [Decimal(ssrcs[0])] + Decimals(ssrcs[1..])
  }

  lemma SplitStep(head: string, d: string, rest: string, fields: seq<string>)
    requires Free(head, ' ') && Split(d + rest, ' ') == [d] + fields
    ensures Split(head + (" " + d + rest), ' ') == [head] + ([d] + fields)
  {
    hide *;
    SplitFirst(head, ' ', d + rest);
    Regroup(head, d, rest);
  }

  lemma Regroup(head: string, d: string, rest: string)
    ensures head + (" " + d + rest) == head + [' '] + (d + rest)
  {
  }

  lemma {:induction false} SplitSsrcList(head: string, ssrcs: seq<U32>)
    requires Free(head, ' ')
    ensures Split(head + SsrcList(ssrcs), ' ') == [head] + Decimals(ssrcs)
    decreases |ssrcs|
  {
    hide Split, Decimal, Free;
    if ssrcs == [] {
      assert head + SsrcList(ssrcs) == head;
      SplitLast(head, ' ');
    } else {
      DecimalFree(ssrcs[0], ' ') by { assert !IsDigit(' '); }
      SplitSsrcList(Decimal(ssrcs[0]), ssrcs[1..]);
      SplitStep(head, Decimal(ssrcs[0]), SsrcList(ssrcs[1..]), Decimals(ssrcs[1..]));
    }
  }

  lemma {:induction false} ParseDecimals(ssrcs: seq<U32>)
    ensures ParseAll(Decimals(ssrcs)) == Some(ssrcs)
    decreases |ssrcs|
  {
    if ssrcs != [] {
      var fields := Decimals(ssrcs);
      assert fields[1..] == Decimals(ssrcs[1..]);
      FromDecimal(ssrcs[0]);
      ParseDecimals(ssrcs[1..]);
      hide FromString, Decimal;
      assert [ssrcs[0]] + ssrcs[1..] == ssrcs;
    }
  }

  lemma SemanticsOf(sem: string)
    requires Semantics(sem) && sem != ""
    ensures GetAttribute("ssrc-group:" + sem) == sem
  {
    assert "ssrc-group:" + sem == "ssrc-group" + [':'] + sem;
    SplitFirst("ssrc-group", ':', sem);
    SplitLast(sem, ':');
    hide Tokenize;
  }

  lemma {:induction false} SsrcListFree(ssrcs: seq<U32>, c: char)
    requires !IsDigit(c) && c != ' '
    ensures Free(SsrcList(ssrcs), c)
    decreases |ssrcs|
  {
    if ssrcs != [] {
      DecimalFree(ssrcs[0], c);
      SsrcListFree(ssrcs[1..], c);
      hide Decimal;
      assert Free(" ", c);
      FreeAppend(" ", Decimal(ssrcs[0]), c);
    }
  }

  lemma GroupRules(head: string, list: string)
    requires Free(head + list, '=') && "ssrc-group:" <= head
    ensures var line := "a=" + (head + list);
      !Contains(line, "a=ssrc:") && Contains(line, "a=ssrc-group:") && line[2..] == head + list
  {
    var line := "a=" + (head + list);
    assert head[0] == 's' && head[..11] == "ssrc-group:";
    PatternRule(head + list, "a=ssrc:");
    PatternRule(head + list, "a=ssrc-group:");
    hide Contains, Free;
    assert line[..13] == "a=" + head[..11];
    assert line[6] == head[4];
    NoPrefix("a=ssrc:", line, 6);
  }

  lemma ParseGroupBody(s: Section, line: string, head: string, sem: string, ssrcs: seq<U32>)
    requires |line| >= 2 && !Contains(line, "a=ssrc:") && Contains(line, "a=ssrc-group:")
    requires Split(line[2..], ' ') == [head] + Decimals(ssrcs) && ssrcs != []
    requires ParseAll(Decimals(ssrcs)) == Some(ssrcs) && GetAttribute(head) == sem && sem != ""
    ensures TakeLine(s, line) == Some(s.(groups := s.groups + [Group(sem, ssrcs)]))
  {
    assert |Decimals(ssrcs)| >= 1;
    hide Contains, Split, ParseAll, GetAttribute, Decimals;
    assert ([head] + Decimals(ssrcs))[1..] == Decimals(ssrcs);
  }

  /** A group line gives back the semantics and every SSRC, in order. */
  lemma ParseGroupLine(s: Section, g: Group)
    requires Semantics(g.semantics) && g.semantics != "" && g.ssrcs != []
    ensures TakeLine(s, GroupLine(g)) == Some(s.(groups := s.groups + [g]))
  {
    var head, list := "ssrc-group:" + g.semantics, SsrcList(g.ssrcs);
    assert GroupLine(g) == "a=" + (head + list);
    FreeAppend("ssrc-group:", g.semantics, ' ');
    FreeAppend("ssrc-group:", g.semantics, '=');
    SsrcListFree(g.ssrcs, '=');
    hide *;
    SemanticsOf(g.semantics);
    FreeAppend(head, list, '=');
    SplitSsrcList(head, g.ssrcs);
    ParseDecimals(g.ssrcs);
    GroupRules(head, list);
    ParseGroupBody(s, GroupLine(g), head, g.semantics, g.ssrcs);
  }

  // ------------------------------------------------------------------- many lines

  lemma {:induction false} ParseAppend(s: Section, a: seq<string>, b: seq<string>)
    ensures TakeLines(s, a + b) ==
            match TakeLines(s, a) case None => None case Some(t) => TakeLines(t, b)
    decreases |b|
  {
    if b == [] {
      assert a + b == a;
    } else {
      var n := |b| - 1;
      ParseAppend(s, a, b[..n]);
      assert (a + b)[..|a + b| - 1] == a + b[..n];
      hide TakeLine;
    }
  }

  lemma ParseOne(s: Section, line: string)
    ensures TakeLines(s, [line]) == TakeLine(s, line)
  {
    assert [line][..0] == [];
    hide TakeLine;
  }

  predicate Printable(g: Group) { Semantics(g.semantics) && g.semantics != "" && g.ssrcs != [] }

  // One more group line.
  lemma ParseNextGroup(s: Section, lines: seq<string>, gs: seq<Group>, g: Group)
    requires Printable(g) && TakeLines(s, lines) == Some(s.(groups := s.groups + gs))
    ensures TakeLines(s, lines + [GroupLine(g)]) == Some(s.(groups := s.groups + gs + [g]))
  {
    hide TakeLines, TakeLine, GroupLine, Semantics;
    var t := s.(groups := s.groups + gs);
    ParseAppend(s, lines, [GroupLine(g)]);
    ParseOne(t, GroupLine(g));
    ParseGroupLine(t, g);
  }

  lemma Rejoin<T>(a: seq<T>, b: seq<T>)
    requires b != []
    ensures a + b[..|b| - 1] + [b[|b| - 1]] == a + b
  {
  }

  lemma {:induction false} ParseGroupLines(s: Section, gs: seq<Group>)
    requires forall i :: 0 <= i < |gs| ==> Printable(gs[i])
    ensures TakeLines(s, GroupLines(gs)) == Some(s.(groups := s.groups + gs))
    decreases |gs|
  {
    if gs == [] {
      assert s.groups + gs == s.groups;
    } else {
      var n := |gs| - 1;
      assert Printable(gs[n]);
      hide TakeLines, TakeLine, GroupLine, Semantics;
      ParseGroupLines(s, gs[..n]);
      Rejoin(s.groups, gs);
      ParseNextGroup(s, GroupLines(gs[..n]), gs[..n], gs[n]);
    }
  }

  function InfoOf(t: Track, n: U32): Info { Info(n, t.cname, t.streamId, t.id) }

  predicate Absent(infos: seq<Info>, n: U32) { forall i :: 0 <= i < |infos| ==> infos[i].ssrc != n }

  lemma {:induction false} FindAbsent(infos: seq<Info>, n: U32)
    requires Absent(infos, n)
    ensures Find(infos, n) == |infos|
  {
  }

  lemma {:induction false} FindLast(infos: seq<Info>, info: Info)
    requires Absent(infos, info.ssrc)
    ensures Find(infos + [info], info.ssrc) == |infos|
  {
    var r := infos + [info];
    assert r[|infos|] == info;
    assert forall j :: 0 <= j < |infos| ==> r[j] == infos[j];
  }

  // An attribute line of the SSRC met last changes that entry; of a new SSRC it adds one.
  lemma ApplyNew(infos: seq<Info>, t: Track, n: U32)
    requires Absent(infos, n)
    ensures ApplySsrc(infos, n, "cname", t.cname) == Some(infos + [Info(n, t.cname, "", "")])
  {
    FindAbsent(infos, n);
    UpdateLast(infos, Info(n, "", "", ""), Info(n, t.cname, "", ""));
    hide Find, Absent;
  }

  lemma UpdateLast(infos: seq<Info>, x: Info, y: Info)
    ensures (infos + [x])[|infos|] == x && (infos + [x])[|infos| := y] == infos + [y]
  {
  }

  lemma ApplyMsid(infos: seq<Info>, t: Track, n: U32)
    requires Absent(infos, n) && Plain(t.streamId) && Plain(t.id)
    ensures ApplySsrc(infos + [Info(n, t.cname, "", "")], n, "msid", t.streamId + " " + t.id) ==
            Some(infos + [InfoOf(t, n)])
  {
    FindLast(infos, Info(n, t.cname, "", ""));
    SplitFirst(t.streamId, ' ', t.id);
    SplitLast(t.id, ' ');
    assert t.streamId + " " + t.id == t.streamId + [' '] + t.id;
    UpdateLast(infos, Info(n, t.cname, "", ""), InfoOf(t, n));
    hide Split, Plain, Find, Absent;
  }

  lemma ApplyOther(infos: seq<Info>, t: Track, n: U32, attr: string, value: string)
    requires Absent(infos, n) && attr != "cname" && attr != "msid"
    ensures ApplySsrc(infos + [InfoOf(t, n)], n, attr, value) == Some(infos + [InfoOf(t, n)])
  {
    FindLast(infos, InfoOf(t, n));
  }

  lemma MsidValueOk(t: Track)
    requires Plain(t.streamId) && Plain(t.id)
    ensures ValueOk(t.streamId + " " + t.id)
  {
  }

  lemma NamesOk()
    ensures AttrName("cname") && AttrName("msid") && AttrName("mslabel") && AttrName("label")
  {
  }

  // The four lines of one SSRC add one complete entry.
  lemma ParseFourLines(s: Section, t: Track, n: U32)
    requires Absent(s.infos, n) && Plain(t.cname) && Plain(t.streamId) && Plain(t.id)
    ensures TakeLines(s, LinesOfSsrc(t, n)) == Some(s.(infos := s.infos + [InfoOf(t, n)]))
  {
    NamesOk();
    MsidValueOk(t);
    assert ValueOk(t.cname) && ValueOk(t.streamId) && ValueOk(t.id);
    var msid := t.streamId + " " + t.id;
    var a, b, c, d := SsrcLine(n, "cname", t.cname), SsrcLine(n, "msid", msid),
                      SsrcLine(n, "mslabel", t.streamId), SsrcLine(n, "label", t.id);
    hide TakeLine, TakeLines, ApplySsrc, SsrcLine, ValueOk, AttrName, Plain, Absent;
    var s1 := s.(infos := s.infos + [Info(n, t.cname, "", "")]);
    var s2 := s.(infos := s.infos + [InfoOf(t, n)]);
    ParseSsrcLine(s, n, "cname", t.cname);
    ApplyNew(s.infos, t, n);
    ParseSsrcLine(s1, n, "msid", msid);
    ApplyMsid(s.infos, t, n);
    ParseSsrcLine(s2, n, "mslabel", t.streamId);
    ApplyOther(s.infos, t, n, "mslabel", t.streamId);
    ParseSsrcLine(s2, n, "label", t.id);
    ApplyOther(s.infos, t, n, "label", t.id);
    FourSteps(s, s1, s2, a, b, c, d);
  }

  lemma FourSteps(s: Section, s1: Section, s2: Section, a: string, b: string, c: string, d: string)
    requires TakeLine(s, a) == Some(s1) && TakeLine(s1, b) == Some(s2)
    requires TakeLine(s2, c) == Some(s2) && TakeLine(s2, d) == Some(s2)
    ensures TakeLines(s, [a, b, c, d]) == Some(s2)
  {
    hide TakeLine, TakeLines;
    ParseOne(s, a);
    ParseOne(s1, b);
    ParseOne(s2, c);
    ParseOne(s2, d);
    ParseAppend(s, [a], [b]);
    ParseAppend(s, [a] + [b], [c]);
    ParseAppend(s, [a] + [b] + [c], [d]);
    assert [a] + [b] + [c] + [d] == [a, b, c, d];
  }

  // --------------------------------------------------------------- whole section

  function InfosOf(t: Track, ssrcs: seq<U32>): (r: seq<Info>)
    ensures |r| == |ssrcs| && forall i :: 0 <= i < |r| ==> r[i] == InfoOf(t, ssrcs[i])
  {
    if ssrcs == [] then [] else InfosOf(t, ssrcs[..|ssrcs| - 1]) + [InfoOf(t, ssrcs[|ssrcs| - 1])]
  }

  function AllInfos(ts: seq<Track>): seq<Info> {
    if ts == [] then [] else AllInfos(ts[..|ts| - 1]) + InfosOf(ts[|ts| - 1], ts[|ts| - 1].ssrcs)
  }

  function AllGroups(ts: seq<Track>): seq<Group> {
    if ts == [] then [] else AllGroups(ts[..|ts| - 1]) + ts[|ts| - 1].groups
  }

  predicate NewSsrcs(infos: seq<Info>, ssrcs: seq<U32>) {
    && (forall i :: 0 <= i < |ssrcs| ==> Absent(infos, ssrcs[i]))
    && (forall i, j :: 0 <= i < j < |ssrcs| ==> ssrcs[i] != ssrcs[j])
  }

  lemma {:induction false} ParseSsrcLines(s: Section, t: Track, ssrcs: seq<U32>)
    requires Plain(t.cname) && Plain(t.streamId) && Plain(t.id) && NewSsrcs(s.infos, ssrcs)
    ensures TakeLines(s, SsrcLines(t, ssrcs)) == Some(s.(infos := s.infos + InfosOf(t, ssrcs)))
    decreases |ssrcs|
  {
    if ssrcs == [] {
      assert s.infos + InfosOf(t, ssrcs) == s.infos;
    } else {
      var n := |ssrcs| - 1;
      var u := s.(infos := s.infos + InfosOf(t, ssrcs[..n]));
      assert Absent(u.infos, ssrcs[n]);
      assert SsrcLines(t, ssrcs) == SsrcLines(t, ssrcs[..n]) + LinesOfSsrc(t, ssrcs[n]);
      assert s.infos + InfosOf(t, ssrcs[..n]) + [InfoOf(t, ssrcs[n])] == s.infos + InfosOf(t, ssrcs);
      assert NewSsrcs(s.infos, ssrcs[..n]);
      hide *;
      ParseSsrcLines(s, t, ssrcs[..n]);
      ParseAppend(s, SsrcLines(t, ssrcs[..n]), LinesOfSsrc(t, ssrcs[n]));
      ParseFourLines(u, t, ssrcs[n]);
    }
  }

  lemma ParseTrackLines(s: Section, t: Track)
    requires TrackOk(t) && NewSsrcs(s.infos, t.ssrcs)
    ensures TakeLines(s, TrackLines(t)) == Some(Section(s.infos + InfosOf(t, t.ssrcs), s.groups + t.groups))
  {
    forall i | 0 <= i < |t.groups|
      ensures Printable(t.groups[i])
    {
      assert GroupOk(t, t.groups[i]);
    }
    hide TakeLines, GroupLines, SsrcLines, NewSsrcs, Plain, GroupOk;
    ParseGroupLines(s, t.groups);
    ParseAppend(s, GroupLines(t.groups), SsrcLines(t, t.ssrcs));
    ParseSsrcLines(s.(groups := s.groups + t.groups), t, t.ssrcs);
  }

  // Every entry collected belongs to an SSRC of some track.
  lemma {:induction false} InfoHasTrack(ts: seq<Track>, i: nat)
    requires i < |AllInfos(ts)|
    ensures exists k :: 0 <= k < |ts| && AllInfos(ts)[i].ssrc in ts[k].ssrcs
    decreases |ts|
  {
    var n := |ts| - 1;
    if i < |AllInfos(ts[..n])| {
      InfoHasTrack(ts[..n], i);
      var k :| 0 <= k < n && AllInfos(ts[..n])[i].ssrc in ts[..n][k].ssrcs;
      assert AllInfos(ts)[i].ssrc in ts[k].ssrcs;
    } else {
      var j := i - |AllInfos(ts[..n])|;
      assert AllInfos(ts)[i] == InfoOf(ts[n], ts[n].ssrcs[j]);
      assert AllInfos(ts)[i].ssrc in ts[n].ssrcs;
    }
  }

  lemma LastIsNew(ts: seq<Track>)
    requires TracksOk(ts) && ts != []
    ensures NewSsrcs(AllInfos(ts[..|ts| - 1]), ts[|ts| - 1].ssrcs)
  {
    var n := |ts| - 1;
    var infos := AllInfos(ts[..n]);
    assert TrackOk(ts[n]);
    forall i, j | 0 <= i < |ts[n].ssrcs| && 0 <= j < |infos|
      ensures infos[j].ssrc != ts[n].ssrcs[i]
    {
      InfoHasTrack(ts[..n], j);
      var k :| 0 <= k < n && infos[j].ssrc in ts[..n][k].ssrcs;
      assert Apart(ts[k], ts[n]);
    }
  }

  lemma FrontOk(ts: seq<Track>)
    requires TracksOk(ts) && ts != []
    ensures TracksOk(ts[..|ts| - 1]) && TrackOk(ts[|ts| - 1])
  {
    hide TrackOk, Apart;
  }

  lemma {:induction false} ParseBuilt(ts: seq<Track>)
    requires TracksOk(ts)
    ensures TakeLines(Section([], []), BuildLines(ts)) == Some(Section(AllInfos(ts), AllGroups(ts)))
    decreases |ts|
  {
    if ts != [] {
      var n := |ts| - 1;
      FrontOk(ts);
      LastIsNew(ts);
      hide TakeLines, TrackLines, NewSsrcs, TracksOk, TrackOk, InfosOf;
      ParseBuilt(ts[..n]);
      ParseAppend(Section([], []), BuildLines(ts[..n]), TrackLines(ts[n]));
      ParseTrackLines(Section(AllInfos(ts[..n]), AllGroups(ts[..n])), ts[n]);
    }
  }

  // ------------------------------------------------------------- tracks from entries

  function Bare(t: Track): Track { t.(groups := []) }

  function BareAll(ts: seq<Track>): (r: seq<Track>)
    ensures |r| == |ts| && forall i :: 0 <= i < |ts| ==> r[i] == Bare(ts[i])
  {
    seq(|ts|, i requires 0 <= i < |ts| => Bare(ts[i]))
  }

  // CreateTracks continued from tracks made earlier.
  function Extend(ts: seq<Track>, infos: seq<Info>): seq<Track> {
    if infos == [] then ts else AddInfo(Extend(ts, infos[..|infos| - 1]), infos[|infos| - 1])
  }

  lemma {:induction false} CreateAppend(a: seq<Info>, b: seq<Info>)
    ensures CreateTracks(a + b) == Extend(CreateTracks(a), b)
    decreases |b|
  {
    if b == [] {
      assert a + b == a;
    } else {
      var n := |b| - 1;
      CreateAppend(a, b[..n]);
      assert (a + b)[..|a + b| - 1] == a + b[..n];
      hide AddInfo;
    }
  }

  predicate NoSuchId(ts: seq<Track>, id: string) { forall i :: 0 <= i < |ts| ==> ts[i].id != id }

  lemma FindTrackLast(ts: seq<Track>, t: Track)
    requires NoSuchId(ts, t.id)
    ensures FindTrack(ts, t.id) == |ts| && FindTrack(ts + [t], t.id) == |ts|
  {
    var r := ts + [t];
    assert r[|ts|] == t;
    assert forall j :: 0 <= j < |ts| ==> r[j] == ts[j];
  }

  lemma AddFirst(ts: seq<Track>, t: Track, n: U32)
    requires NoSuchId(ts, t.id)
    ensures AddInfo(ts, InfoOf(t, n)) == ts + [Track(t.id, [n], [], t.cname, t.streamId)]
  {
    FindTrackLast(ts, t);
    hide FindTrack, NoSuchId;
    assert [] + [n] == [n];
    ReplaceLastTrack(ts, Track(t.id, [], [], "", ""), Track(t.id, [n], [], t.cname, t.streamId));
  }

  lemma ReplaceLastTrack(ts: seq<Track>, x: Track, y: Track)
    ensures (ts + [x])[|ts|] == x && (ts + [x])[|ts| := y] == ts + [y]
  {
  }

  lemma AddNext(ts: seq<Track>, t: Track, ssrcs: seq<U32>, n: U32)
    requires NoSuchId(ts, t.id)
    ensures AddInfo(ts + [Track(t.id, ssrcs, [], t.cname, t.streamId)], InfoOf(t, n)) ==
            ts + [Track(t.id, ssrcs + [n], [], t.cname, t.streamId)]
  {
    var x := Track(t.id, ssrcs, [], t.cname, t.streamId);
    FindTrackLast(ts, x);
    hide FindTrack, NoSuchId;
    ReplaceLastTrack(ts, x, Track(t.id, ssrcs + [n], [], t.cname, t.streamId));
  }

  // The entries of one track make one track.
  lemma {:induction false} ExtendByTrack(ts: seq<Track>, t: Track, ssrcs: seq<U32>)
    requires NoSuchId(ts, t.id) && ssrcs != []
    ensures Extend(ts, InfosOf(t, ssrcs)) == ts + [Track(t.id, ssrcs, [], t.cname, t.streamId)]
    decreases |ssrcs|
  {
    var n := |ssrcs| - 1;
    var infos := InfosOf(t, ssrcs);
    assert infos[..n] == InfosOf(t, ssrcs[..n]) && infos[n] == InfoOf(t, ssrcs[n]);
    if n == 0 {
      assert infos[..n] == [];
      AddFirst(ts, t, ssrcs[0]);
      assert ssrcs == [ssrcs[0]];
    } else {
      ExtendByTrack(ts, t, ssrcs[..n]);
      AddNext(ts, t, ssrcs[..n], ssrcs[n]);
      assert ssrcs == ssrcs[..n] + [ssrcs[n]];
    }
  }

  lemma LastIdIsNew(ts: seq<Track>)
    requires TracksOk(ts) && ts != []
    ensures NoSuchId(BareAll(ts[..|ts| - 1]), ts[|ts| - 1].id) && ts[|ts| - 1].ssrcs != []
  {
    var n := |ts| - 1;
    assert TrackOk(ts[n]);
    forall i | 0 <= i < n
      ensures BareAll(ts[..n])[i].id != ts[n].id
    {
      assert Apart(ts[i], ts[n]);
    }
  }

  lemma {:induction false} CreateAll(ts: seq<Track>)
    requires TracksOk(ts)
    ensures CreateTracks(AllInfos(ts)) == BareAll(ts)
    decreases |ts|
  {
    if ts != [] {
      var n := |ts| - 1;
      FrontOk(ts);
      LastIdIsNew(ts);
      hide CreateTracks, Extend, InfosOf, TracksOk, NoSuchId;
      CreateAll(ts[..n]);
      CreateAppend(AllInfos(ts[..n]), InfosOf(ts[n], ts[n].ssrcs));
      ExtendByTrack(BareAll(ts[..n]), ts[n], ts[n].ssrcs);
      BareSnoc(ts);
    }
  }

  lemma BareSnoc(ts: seq<Track>)
    requires ts != []
    ensures BareAll(ts) == BareAll(ts[..|ts| - 1]) + [Bare(ts[|ts| - 1])]
  {
  }

  // ------------------------------------------------------------------ groups to tracks

  lemma {:induction false} AddGroupsAppend(ts: seq<Track>, a: seq<Group>, b: seq<Group>)
    ensures AddGroups(ts, a + b) == AddGroups(AddGroups(ts, a), b)
    decreases |b|
  {
    if b == [] {
      assert a + b == a;
    } else {
      var n := |b| - 1;
      AddGroupsAppend(ts, a, b[..n]);
      assert (a + b)[..|a + b| - 1] == a + b[..n];
      hide AddGroup;
    }
  }

  predicate OthersLack(ts: seq<Track>, k: nat, n: U32) {
    forall i :: 0 <= i < |ts| && i != k ==> n !in ts[i].ssrcs
  }

  // A group led by an SSRC of track k goes to track k and no other.
  lemma AddGroupToOwner(ts: seq<Track>, k: nat, g: Group)
    requires k < |ts| && g.ssrcs != [] && g.ssrcs[0] in ts[k].ssrcs && OthersLack(ts, k, g.ssrcs[0])
    ensures AddGroup(ts, g) == ts[k := ts[k].(groups := ts[k].groups + [g])]
  {
  }

  lemma {:induction false} AddGroupsToOwner(ts: seq<Track>, k: nat, gs: seq<Group>)
    requires k < |ts|
    requires forall i :: 0 <= i < |gs| ==>
            gs[i].ssrcs != [] && gs[i].ssrcs[0] in ts[k].ssrcs && OthersLack(ts, k, gs[i].ssrcs[0])
    ensures AddGroups(ts, gs) == ts[k := ts[k].(groups := ts[k].groups + gs)]
    decreases |gs|
  {
    if gs == [] {
      assert ts[k].groups + gs == ts[k].groups;
    } else {
      var n := |gs| - 1;
      AddGroupsToOwner(ts, k, gs[..n]);
      var r := ts[k := ts[k].(groups := ts[k].groups + gs[..n])];
      OthersStillLack(ts, k, ts[k].groups + gs[..n], gs[n].ssrcs[0]);
      hide AddGroup, OthersLack;
      AddGroupToOwner(r, k, gs[n]);
      assert ts[k].groups + gs[..n] + [gs[n]] == ts[k].groups + gs;
    }
  }

  lemma OthersStillLack(ts: seq<Track>, k: nat, groups: seq<Group>, n: U32)
    requires k < |ts| && OthersLack(ts, k, n)
    ensures OthersLack(ts[k := ts[k].(groups := groups)], k, n)
  {
  }

  // The first m tracks have their groups, the others not yet.
  function Partial(ts: seq<Track>, m: nat): (r: seq<Track>)
    requires m <= |ts|
    ensures |r| == |ts|
  {
    ts[..m] + BareAll(ts[m..])
  }

  lemma PartialLacks(ts: seq<Track>, m: nat, g: Group)
    requires TracksOk(ts) && m < |ts| && GroupOk(ts[m], g)
    ensures g.ssrcs != [] && g.ssrcs[0] in Partial(ts, m)[m].ssrcs && OthersLack(Partial(ts, m), m, g.ssrcs[0])
  {
    forall i | 0 <= i < |ts| && i != m
      ensures g.ssrcs[0] !in Partial(ts, m)[i].ssrcs
    {
      if i < m {
        assert Apart(ts[i], ts[m]);
      } else {
        assert Apart(ts[m], ts[i]);
      }
    }
  }

  lemma {:induction false} AssignAll(ts: seq<Track>, m: nat)
    requires TracksOk(ts) && m <= |ts|
    ensures AddGroups(BareAll(ts), AllGroups(ts[..m])) == Partial(ts, m)
    decreases m
  {
    if m == 0 {
      assert ts[..0] == [] && ts[0..] == ts;
      assert Partial(ts, 0) == BareAll(ts);
    } else {
      var k := m - 1;
      AssignAll(ts, k);
      assert TrackOk(ts[k]);
      forall i | 0 <= i < |ts[k].groups|
        ensures ts[k].groups[i].ssrcs != [] && ts[k].groups[i].ssrcs[0] in Partial(ts, k)[k].ssrcs &&
                OthersLack(Partial(ts, k), k, ts[k].groups[i].ssrcs[0])
      {
        assert GroupOk(ts[k], ts[k].groups[i]);
        PartialLacks(ts, k, ts[k].groups[i]);
      }
      assert ts[..m][..k] == ts[..k];
      hide AddGroups, OthersLack, TracksOk, TrackOk;
      AddGroupsAppend(BareAll(ts), AllGroups(ts[..k]), ts[k].groups);
      AddGroupsToOwner(Partial(ts, k), k, ts[k].groups);
      PartialNext(ts, k);
    }
  }

  lemma PartialNext(ts: seq<Track>, k: nat)
    requires k < |ts|
    ensures Partial(ts, k)[k] == Bare(ts[k])
    ensures Partial(ts, k)[k := Partial(ts, k)[k].(groups := Partial(ts, k)[k].groups + ts[k].groups)] ==
            Partial(ts, k + 1)
  {
    assert Partial(ts, k)[k] == Bare(ts[k]);
    assert [] + ts[k].groups == ts[k].groups;
  }

  // ------------------------------------------------------------------- main theorem

  lemma {:induction false} SomeInfos(ts: seq<Track>)
    requires TracksOk(ts) && ts != []
    ensures AllInfos(ts) != []
  {
    var n := |ts| - 1;
    assert TrackOk(ts[n]);
  }

  /** Parsing the lines printed for any acceptable list of tracks returns the same tracks: ids, SSRCs,
      cname, stream id and groups, all in order. */
  lemma ParseAfterBuild(ts: seq<Track>)
    requires TracksOk(ts)
    ensures TakeLines(Section([], []), BuildLines(ts)) == Some(Section(AllInfos(ts), AllGroups(ts)))
    ensures TracksOf(Section(AllInfos(ts), AllGroups(ts))) == ts
  {
    ParseBuilt(ts);
    CreateAll(ts);
    AssignAll(ts, |ts|);
    assert ts[..|ts|] == ts && ts[|ts|..] == [];
    assert Partial(ts, |ts|) == ts;
    if ts != [] {
      SomeInfos(ts);
    }
    hide TakeLines, BuildLines, AddGroups, CreateTracks, TracksOk;
  }
}
