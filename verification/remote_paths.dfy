/** Mapping a local workspace path onto the remote project location
    (`RemoteCommandLauncher.makeRemote` and `getPathString`).

    A remote resource knows two places: the location of the project in the
    local workspace, and the path of its active location on the remote host.
    A local path under the first is mapped to the same relative place under
    the second. When the workspace location carries a Windows drive but the
    local path does not, the path came through Cygwin or MinGW, and both
    locations are first rewritten into that drive-less form. */
module RemotePaths {
  import opened Wrappers
  import opened Paths

  const CygwinPrefix: string := "cygdrive"

  /** The remote project: the local location of its resource and the path part
      of its active location URI. Either may be null: a resource on a file
      system that is not local has no location, and a URI may have no path.
      A missing resource or URI is folded into the same `None`, since it
      throws the same way. */
  datatype RemoteResource = RemoteResource(location: Option<Path>, activeLocationPath: Option<string>)

  predicate IsAsciiLetter(c: char) {
    ('a' <= c <= 'z') || ('A' <= c <= 'Z')
  }

  /** Matches the anchored pattern `^([a-zA-Z]):`. */
  predicate HasDrivePrefix(s: string) {
    |s| >= 2 && IsAsciiLetter(s[0]) && s[1] == DeviceSeparator
  }

  /** The text that replaces a drive `X:`: `/cygdrive/X` under Cygwin, `/X` under MinGW. */
  function DriveReplacement(letter: char, isCygwin: bool): string
  {
    if isCygwin then "/" + CygwinPrefix + "/" + [letter] else "/" + [letter]
  }

  /** The leading segments that stand for drive `letter` once the device is gone. */
  function DriveSegments(letter: char, isCygwin: bool): seq<string>
  {
    if isCygwin then [CygwinPrefix, [letter]] else [[letter]]
  }

  /** `getPathString`: the printed path with a leading drive letter rewritten. */
  function GetPathString(s: string, isCygwin: bool): (r: string)
    ensures HasDrivePrefix(s) ==>
              var n := |DriveReplacement(s[0], isCygwin)|;
              && |r| == n + |s| - 2
              && r[..n] == DriveReplacement(s[0], isCygwin)
              && r[n..] == s[2..]
    ensures !HasDrivePrefix(s) ==> r == s
  {
    if HasDrivePrefix(s) then DriveReplacement(s[0], isCygwin) + s[2..] else s
  }

  /** Undoes the drive rewrite: `/cygdrive/X…` (Cygwin) or `/X…` (MinGW) back to `X:…`. */
  function RestoreDrive(r: string, isCygwin: bool): string
  {
    var n := |DriveReplacement('a', isCygwin)|;
    if |r| >= n && r[..n - 1] == DriveReplacement('a', isCygwin)[..n - 1]
    then [r[n - 1], DeviceSeparator] + r[n..]
    else r
  }

  /** The Cygwin or MinGW form of a path: print it, rewrite its drive, parse again. */
  function Rewrite(p: Path, isCygwin: bool): Path
  {
    Parse(GetPathString(ToString(p), isCygwin))
  }

  /** Re-root what follows `location` in `local` under `remotePath`; a local path
      that is the location itself gives `remotePath` unchanged. */
  function Reroot(local: Path, location: Path, remotePath: Path): Path
  {
    var relative := MakeRelativeTo(local, location);
    if IsEmpty(relative) then remotePath else Append(remotePath, relative)
  }

  /** `makeRemote(IPath, IRemoteResource)`. A relative local path is returned
      before the remote resource is consulted. Otherwise a null location or
      active location path throws, and so does an absolute local path without
      segments when the location has a drive and the local path does not: its
      `segment(0)` is null and the `equals` call on it throws. */
  function MakeRemote(local: Path, remote: RemoteResource): (r: Result<Path, Fault>)
    ensures !local.absolute ==> r == Success(local)
    ensures r.Failure? <==>
              && local.absolute
              && (|| remote.activeLocationPath.None?
                  || remote.location.None?
                  || (remote.location.value.device.Some? && local.device.None? && |local.segments| == 0))
    ensures r.Failure? ==> r.error == NullPointer
  {
    if !local.absolute then Success(local)
    else if remote.activeLocationPath.None? || remote.location.None? then Failure(NullPointer)
    else
      var location := remote.location.value;
      var remotePath := Parse(remote.activeLocationPath.value);
      if location.device.Some? && local.device.None? then
        if |local.segments| == 0 then Failure(NullPointer)
        else
          var isCygwin := local.segments[0] == CygwinPrefix;
          Success(Reroot(local, Rewrite(location, isCygwin), Rewrite(remotePath, isCygwin)))
      else Success(Reroot(local, location, remotePath))
  }

  /** `makeRemote(String, IRemoteResource)`: parse, map, print. What it
      promises is stated on strings by `MakeRemoteStringRelative` and
      `MakeRemoteStringUnderLocation` below. */
  function MakeRemoteString(local: string, remote: RemoteResource): Result<string, Fault>
  {
    match MakeRemote(Parse(local), remote)
    case Success(p) => Success(ToString(p))
    case Failure(e) => Failure(e)
  }

  // ---------------------------------------------------------------------------
  // Drive rewriting

  /** The drive rewrite loses nothing: the original text can be restored. */
  lemma GetPathStringRestores(s: string, isCygwin: bool)
    requires HasDrivePrefix(s)
    ensures RestoreDrive(GetPathString(s, isCygwin), isCygwin) == s
  {
    var r := GetPathString(s, isCygwin);
    var n := |DriveReplacement('a', isCygwin)|;
    assert r == DriveReplacement(s[0], isCygwin) + s[2..];
    assert r[n - 1] == s[0];
    assert r[n..] == s[2..];
    assert r[..n - 1] == DriveReplacement('a', isCygwin)[..n - 1];
  }

  lemma {:induction false} SegmentsAfterJoin(prefix: seq<string>, rest: string)
    requires |prefix| > 0
    requires forall i :: 0 <= i < |prefix| ==> ValidSegment(prefix[i])
    ensures Segments(Join(prefix) + [Separator] + rest) == prefix + Segments(rest)
  {
    SegmentsConcat(Join(prefix), rest);
    SegmentsOfJoin(prefix);
  }

  lemma DriveReplacementIsJoin(letter: char, isCygwin: bool)
    requires IsAsciiLetter(letter)
    ensures DriveReplacement(letter, isCygwin) == [Separator] + Join(DriveSegments(letter, isCygwin))
    ensures forall i :: 0 <= i < |DriveSegments(letter, isCygwin)| ==>
              ValidSegment(DriveSegments(letter, isCygwin)[i])
  {
  }

  /** The printed text of a drive path after the rewrite: the drive's
      replacement, then the printed path after its device. */
  lemma RewrittenText(p: Path, isCygwin: bool)
    requires Valid(p) && p.absolute
    requires p.device.Some? && |p.device.value| == 2 && IsAsciiLetter(p.device.value[0])
    ensures GetPathString(ToString(p), isCygwin)
            == DriveReplacement(p.device.value[0], isCygwin) + TailText(true, p.segments)
  {
    var d := p.device.value;
    var tail := TailText(true, p.segments);
    var s := ToString(p);
    assert s == d + tail;
    assert s[0] == d[0] && s[1] == d[1];
    assert s[2..] == tail;
  }

  /** The rewritten text of a drive path parses to a device-less absolute path
      whose segments are the drive's segments followed by the path's own. */
  lemma RewrittenTextParses(letter: char, isCygwin: bool, segs: seq<string>)
    requires IsAsciiLetter(letter)
    requires forall i :: 0 <= i < |segs| ==> ValidSegment(segs[i])
    ensures Parse(DriveReplacement(letter, isCygwin) + TailText(true, segs))
            == Path(None, true, DriveSegments(letter, isCygwin) + segs)
  {
    var pre := DriveSegments(letter, isCygwin);
    var body := Join(pre) + [Separator] + Join(segs);
    var t := DriveReplacement(letter, isCygwin) + TailText(true, segs);
    DriveReplacementIsJoin(letter, isCygwin);
    assert t == [Separator] + body;
    JoinHasNoDeviceSeparator(pre);
    JoinHasNoDeviceSeparator(segs);
    assert DeviceSeparator !in t;
    ParseAfterDevice(None, t);
    assert DeviceText(None) + t == t;
    SegmentsSeparatorFirst(body);
    SegmentsAfterJoin(pre, Join(segs));
    SegmentsOfJoin(segs);
  }

  /** A valid absolute path on drive `X:` becomes, once printed, rewritten and
      parsed again, a device-less absolute path whose segments are the drive's
      segments (`cygdrive`, `X` or just `X`) followed by the original ones. */
  lemma RewriteDrivePath(p: Path, isCygwin: bool)
    requires Valid(p) && p.absolute
    requires p.device.Some? && |p.device.value| == 2 && IsAsciiLetter(p.device.value[0])
    ensures Rewrite(p, isCygwin)
            == Path(None, true, DriveSegments(p.device.value[0], isCygwin) + p.segments)
  {
    RewrittenText(p, isCygwin);
    RewrittenTextParses(p.device.value[0], isCygwin, p.segments);
  }

  /** A valid path without a device is left alone by the rewrite. */
  lemma RewriteDevicelessPath(p: Path, isCygwin: bool)
    requires Valid(p) && p.device.None?
    ensures Rewrite(p, isCygwin) == p
  {
    var s := ToString(p);
    JoinHasNoDeviceSeparator(p.segments);
    assert DeviceSeparator !in s;
    assert !HasDrivePrefix(s);
    ParseToString(p);
  }

  // ---------------------------------------------------------------------------
  // Mapping local paths

  /** Whatever follows the workspace location in `local` lands in the same
      order after the remote active path; when nothing follows, the result is
      the remote active path itself. */
  lemma RerootUnderLocation(local: Path, location: Path, remotePath: Path, extra: seq<string>)
    requires local.device == location.device
    requires local.segments == location.segments + extra
    ensures Reroot(local, location, remotePath)
            == Path(remotePath.device, remotePath.absolute, remotePath.segments + extra)
  {
    assert location.segments <= local.segments;
    assert local.segments[|location.segments|..] == extra;
    if extra == [] {
      assert remotePath.segments + extra == remotePath.segments;
    }
  }

  /** The case of the doc comment: a local path under the project's workspace
      location, on the same device. */
  lemma MakeRemoteUnderLocation(local: Path, remote: RemoteResource, extra: seq<string>)
    requires remote.location.Some? && remote.activeLocationPath.Some?
    requires local.absolute
    requires local.device == remote.location.value.device
    requires local.segments == remote.location.value.segments + extra
    ensures var remotePath := Parse(remote.activeLocationPath.value);
            MakeRemote(local, remote)
            == Success(Path(remotePath.device, remotePath.absolute, remotePath.segments + extra))
  {
    RerootUnderLocation(local, remote.location.value, Parse(remote.activeLocationPath.value), extra);
  }

  /** The local path equal to the workspace location maps to exactly the remote active path. */
  lemma MakeRemoteAtLocation(local: Path, remote: RemoteResource)
    requires remote.activeLocationPath.Some?
    requires local.absolute && remote.location == Some(local)
    ensures MakeRemote(local, remote) == Success(Parse(remote.activeLocationPath.value))
  {
    MakeRemoteUnderLocation(local, remote, []);
    assert local.segments == local.segments + [];
    var remotePath := Parse(remote.activeLocationPath.value);
    assert remotePath.segments + [] == remotePath.segments;
  }

  /** An absolute path on a drive `X:` whose drive is a single ASCII letter. */
  predicate OnLetterDrive(p: Path) {
    && Valid(p) && p.absolute
    && p.device.Some? && |p.device.value| == 2 && IsAsciiLetter(p.device.value[0])
  }

  /** Cygwin: the workspace is at `loc` on drive `X:` and the local path reads
      `/cygdrive/X/<loc>/<extra>`. The remote active location is the path part
      of a `file:` URI, `/Y:/<q>`, for a path `q` on drive `Y:`; the result is
      `/cygdrive/Y/<q>/<extra>`. */
  lemma MakeRemoteCygwin(local: Path, loc: Path, q: Path, extra: seq<string>)
    requires OnLetterDrive(loc) && OnLetterDrive(q)
    requires local == Path(None, true, DriveSegments(loc.device.value[0], true) + loc.segments + extra)
    ensures MakeRemote(local, RemoteResource(Some(loc), Some([Separator] + ToString(q))))
            == Success(Path(None, true, DriveSegments(q.device.value[0], true) + q.segments + extra))
  {
    assert local.segments[0] == CygwinPrefix;
    ParseLeadingSeparator(q);
    RewriteDrivePath(loc, true);
    RewriteDrivePath(q, true);
    RerootUnderLocation(local, Rewrite(loc, true), Rewrite(q, true), extra);
  }

  /** A workspace at `C:/ws/proj` whose active location URI has the path
      `/C:/ws/proj`: the Cygwin path `/cygdrive/C/ws/proj/sub` maps to
      `/cygdrive/C/ws/proj/sub`. */
  lemma MakeRemoteCygwinExample()
    ensures MakeRemote(Path(None, true, ["cygdrive", "C", "ws", "proj", "sub"]),
                       RemoteResource(Some(Path(Some("C:"), true, ["ws", "proj"])), Some("/C:/ws/proj")))
            == Success(Path(None, true, ["cygdrive", "C", "ws", "proj", "sub"]))
  {
    var loc := Path(Some("C:"), true, ["ws", "proj"]);
    assert ValidSegment("ws") && ValidSegment("proj");
    assert ToString(loc) == "C:/ws/proj";
    assert [Separator] + ToString(loc) == "/C:/ws/proj";
    assert DriveSegments('C', true) + loc.segments + ["sub"] == ["cygdrive", "C", "ws", "proj", "sub"];
    MakeRemoteCygwin(Path(None, true, ["cygdrive", "C", "ws", "proj", "sub"]), loc, loc, ["sub"]);
  }

  /** MinGW: as for Cygwin, with the local path reading `/X/<loc>/<extra>` and
      the result `/Y/<q>/<extra>`. */
  lemma MakeRemoteMinGW(local: Path, loc: Path, q: Path, extra: seq<string>)
    requires OnLetterDrive(loc) && OnLetterDrive(q)
    requires local == Path(None, true, DriveSegments(loc.device.value[0], false) + loc.segments + extra)
    ensures MakeRemote(local, RemoteResource(Some(loc), Some([Separator] + ToString(q))))
            == Success(Path(None, true, DriveSegments(q.device.value[0], false) + q.segments + extra))
  {
    var letter := loc.device.value[0];
    assert local.segments[0] == [letter];
    assert [letter] != CygwinPrefix;
    ParseLeadingSeparator(q);
    RewriteDrivePath(loc, false);
    RewriteDrivePath(q, false);
    RerootUnderLocation(local, Rewrite(loc, false), Rewrite(q, false), extra);
  }

  /** On strings: a printed relative path comes back exactly as given. */
  lemma MakeRemoteStringRelative(p: Path, remote: RemoteResource)
    requires Valid(p) && !p.absolute
    ensures MakeRemoteString(ToString(p), remote) == Success(ToString(p))
  {
    ParseToString(p);
  }

  /** On strings, the doc comment's case: the printed workspace location
      followed by more segments maps to the remote active path followed by the
      same segments. The active path is a printed path `q` that parsing keeps
      unchanged, or, when `q` has a device, `q` after one more separator (the
      path part of a `file:` URI). */
  lemma MakeRemoteStringUnderLocation(loc: Path, q: Path, activeLocationPath: string, extra: seq<string>)
    requires Valid(loc) && loc.absolute
    requires Valid(q)
    requires activeLocationPath == ToString(q)
          || (q.device.Some? && activeLocationPath == [Separator] + ToString(q))
    requires forall i :: 0 <= i < |extra| ==> ValidSegment(extra[i])
    ensures MakeRemoteString(ToString(Path(loc.device, true, loc.segments + extra)),
                             RemoteResource(Some(loc), Some(activeLocationPath)))
            == Success(ToString(Path(q.device, q.absolute, q.segments + extra)))
  {
    var local := Path(loc.device, true, loc.segments + extra);
    assert Valid(local) by {
      forall i | 0 <= i < |local.segments|
        ensures ValidSegment(local.segments[i])
      {
        if i >= |loc.segments| {
          assert local.segments[i] == extra[i - |loc.segments|];
        }
      }
    }
    ParseToString(local);
    if activeLocationPath == ToString(q) {
      ParseToString(q);
    } else {
      ParseLeadingSeparator(q);
    }
    MakeRemoteUnderLocation(local, RemoteResource(Some(loc), Some(activeLocationPath)), extra);
  }
}
