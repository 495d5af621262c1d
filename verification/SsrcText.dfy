/** The round trip through the text itself. */
module SsrcText {
  import opened Wrappers
  import opened Bytes
  import opened SdpText
  import opened SsrcCodec
  import opened SsrcRoundTrip
  import opened RemoteSdp

  // Every line ends in "\r\n".
  function Text(lines: seq<string>): string {
    if lines == [] then "" else Text(lines[..|lines| - 1]) + lines[|lines| - 1] + "\r\n"
  }

  function StripAll(fields: seq<string>): (r: seq<string>)
    ensures |r| == |fields|
  {
    seq(|fields|, i requires 0 <= i < |fields| => if fields[i] == "" then "" else fields[i][..|fields[i]| - 1])
  }

  // How set_remote_sdp cuts the text into lines.
  function LinesOf(sdp: string): seq<string> {
    var fields := Tokenize(sdp, '\n');
    if Contains(sdp, "\r\n") then StripAll(fields) else fields
  }

  function WithReturns(lines: seq<string>): (r: seq<string>)
    ensures |r| == |lines| && forall i :: 0 <= i < |r| ==> r[i] == lines[i] + "\r"
  {
    seq(|lines|, i requires 0 <= i < |lines| => lines[i] + "\r")
  }

  predicate LineOk(l: string) { Free(l, '\n') }

  lemma {:induction false} TextFront(lines: seq<string>)
    requires lines != []
    ensures Text(lines) == (lines[0] + "\r") + ['\n'] + Text(lines[1..])
  {
    var n := |lines| - 1;
    if n == 0 {
      assert lines[..0] == [] && lines[1..] == [];
      assert Text(lines[..0]) == "";
      assert Text(lines) == "" + lines[0] + "\r\n";
    } else {
      TextFront(lines[..n]);
      assert lines[..n][1..] == lines[1..][..n - 1];
      TextAssoc(lines[0] + "\r", Text(lines[..n][1..]), lines[n]);
    }
  }

  lemma TextAssoc(a: string, t: string, l: string)
    ensures a + ['\n'] + t + l + "\r\n" == a + ['\n'] + (t + l + "\r\n")
  {
  }

  lemma {:induction false} TokenizeText(lines: seq<string>)
    requires forall i :: 0 <= i < |lines| ==> LineOk(lines[i])
    ensures Tokenize(Text(lines), '\n') == WithReturns(lines)
    decreases |lines|
  {
    if lines != [] {
      TextFront(lines);
      TokenizeText(lines[1..]);
      assert LineOk(lines[0]);
      FreeAppend(lines[0], "\r", '\n');
      hide Tokenize, Text, LineOk;
      SplitFirst(lines[0] + "\r", '\n', Text(lines[1..]));
      assert WithReturns(lines) == [lines[0] + "\r"] + WithReturns(lines[1..]);
    }
  }

  lemma TextHasReturn(lines: seq<string>)
    requires lines != []
    ensures Contains(Text(lines), "\r\n")
  {
    var t := Text(lines);
    assert t[|t| - 2..] == "\r\n";
  }

  lemma CutText(lines: seq<string>)
    requires lines != [] && forall i :: 0 <= i < |lines| ==> LineOk(lines[i])
    ensures LinesOf(Text(lines)) == lines
  {
    hide Tokenize, Text, Contains, LineOk;
    TokenizeText(lines);
    TextHasReturn(lines);
    forall i | 0 <= i < |lines|
      ensures StripAll(WithReturns(lines))[i] == lines[i]
    {
      assert (lines[i] + "\r")[..|lines[i]|] == lines[i];
    }
    assert StripAll(WithReturns(lines)) == lines;
  }

  // --------------------------------------------------------------- no stray newline

  lemma SsrcLineOk(n: U32, attr: string, value: string)
    requires Free(attr, '\n') && Free(value, '\n')
    ensures LineOk(SsrcLine(n, attr, value))
  {
    DecimalFree(n, '\n');
    hide Decimal;
    FreeAppend("a=ssrc:", Decimal(n), '\n');
    FreeAppend("a=ssrc:" + Decimal(n), " ", '\n');
    FreeAppend("a=ssrc:" + Decimal(n) + " ", attr, '\n');
    FreeAppend("a=ssrc:" + Decimal(n) + " " + attr, ":", '\n');
    FreeAppend("a=ssrc:" + Decimal(n) + " " + attr + ":", value, '\n');
    hide Free;
  }

  lemma GroupLineOk(g: Group)
    requires Semantics(g.semantics)
    ensures LineOk(GroupLine(g))
  {
    SsrcListFree(g.ssrcs, '\n');
    hide SsrcList;
    FreeAppend("a=ssrc-group:", g.semantics, '\n');
    FreeAppend("a=ssrc-group:" + g.semantics, SsrcList(g.ssrcs), '\n');
    hide Free;
  }

  predicate AllOk(lines: seq<string>) { forall i :: 0 <= i < |lines| ==> LineOk(lines[i]) }

  lemma AllOkAppend(a: seq<string>, b: seq<string>)
    requires AllOk(a) && AllOk(b)
    ensures AllOk(a + b)
  {
    hide LineOk;
  }

  lemma {:induction false} GroupLinesOk(gs: seq<Group>)
    requires forall i :: 0 <= i < |gs| ==> Printable(gs[i])
    ensures AllOk(GroupLines(gs))
    decreases |gs|
  {
    if gs != [] {
      var n := |gs| - 1;
      assert Printable(gs[n]);
      GroupLineOk(gs[n]);
      hide LineOk, GroupLine, Semantics;
      GroupLinesOk(gs[..n]);
      AllOkAppend(GroupLines(gs[..n]), [GroupLine(gs[n])]);
    }
  }

  lemma FourLinesOk(t: Track, n: U32)
    requires Plain(t.cname) && Plain(t.streamId) && Plain(t.id)
    ensures AllOk(LinesOfSsrc(t, n))
  {
    FreeAppend(t.streamId, " ", '\n');
    FreeAppend(t.streamId + " ", t.id, '\n');
    hide SsrcLine, LineOk;
    SsrcLineOk(n, "cname", t.cname);
    SsrcLineOk(n, "msid", t.streamId + " " + t.id);
    SsrcLineOk(n, "mslabel", t.streamId);
    SsrcLineOk(n, "label", t.id);
  }

  lemma {:induction false} SsrcLinesOk(t: Track, ssrcs: seq<U32>)
    requires Plain(t.cname) && Plain(t.streamId) && Plain(t.id)
    ensures AllOk(SsrcLines(t, ssrcs)) && |SsrcLines(t, ssrcs)| == 4 * |ssrcs|
    decreases |ssrcs|
  {
    if ssrcs != [] {
      var n := |ssrcs| - 1;
      hide LineOk, SsrcLine, Plain;
      SsrcLinesOk(t, ssrcs[..n]);
      FourLinesOk(t, ssrcs[n]);
      AllOkAppend(SsrcLines(t, ssrcs[..n]), LinesOfSsrc(t, ssrcs[n]));
    }
  }

  lemma {:induction false} BuildLinesOk(ts: seq<Track>)
    requires TracksOk(ts)
    ensures AllOk(BuildLines(ts)) && (ts != [] ==> BuildLines(ts) != [])
    decreases |ts|
  {
    if ts != [] {
      var n := |ts| - 1;
      var t := ts[n];
      FrontOk(ts);
      BuildLinesOk(ts[..n]);
      forall i | 0 <= i < |t.groups|
        ensures Printable(t.groups[i])
      {
        assert GroupOk(t, t.groups[i]);
      }
      hide LineOk, TracksOk, Plain, GroupOk, SsrcLines, GroupLines;
      GroupLinesOk(t.groups);
      SsrcLinesOk(t, t.ssrcs);
      AllOkAppend(GroupLines(t.groups), SsrcLines(t, t.ssrcs));
      AllOkAppend(BuildLines(ts[..n]), TrackLines(t));
    }
  }

  /** What set_remote_sdp makes of a text. */
  function SetRemoteSdp(sdp: string, fp: Digests): Reading<Sdp> {
    if Tokenize(sdp, '\n') == [] then Failed(Refused) else ParseLines(START, LinesOf(sdp), fp)
  }

  lemma TextHasFields(lines: seq<string>)
    requires lines != [] && AllOk(lines)
    ensures LinesOf(Text(lines)) == lines && Tokenize(Text(lines), '\n') != []
  {
    CutText(lines);
    hide Text, Tokenize, Contains;
  }

  /** A video section printed to text and read back from it: whatever newline-free lines come first, if they
      leave the parser in a video section, then the tracks come back exactly if they are clean. */
  lemma TextRoundTrip(pre: seq<string>, ts: seq<Track>, fp: Digests)
    requires AllOk(pre) && pre != [] && NamesDigests(fp) && TracksOk(ts)
    ensures var p, r := ParseLines(START, pre, fp), SetRemoteSdp(Text(pre + BuildLines(ts)), fp);
      p.Read? && InVideo(p.value) ==>
        && (r.Read? && VideoTracks(r.value) == ts <==> AllClean(ts))
        && (r.Failed? <==> !AllClean(ts))
  {
    BuildLinesOk(ts);
    AllOkAppend(pre, BuildLines(ts));
    hide LinesOf, Tokenize, Text, BuildLines, ParseLines, TracksOk, AllClean, NamesDigests, VideoTracks, AllOk, InVideo;
    TextHasFields(pre + BuildLines(ts));
    RoundTripExactly(pre, ts, fp);
  }
}
