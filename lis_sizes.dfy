/** The pure arithmetic and string building of LisBase: memory and file
    sizes written as "<n>MB" / "<n>GB", the target size of a disk resize,
    the RAM settings in bytes and megabytes, the names given to attached
    disks, and the memory-stress parameters chosen from the guest's
    distribution string. */
module LisSizes {
  import opened Errors
  import opened Text

  const MiB: int := 1024 * 1024
  const GiB: int := 1024 * 1024 * 1024

  /* ---------------- sizes written with a unit suffix ---------------- */

  /** A size written with a unit: every occurrence of the unit removed,
      the rest parsed, and the number scaled to bytes. */
  function WithUnit(size: string, unit: string, factor: int): Result<int>
    requires |unit| > 0
  {
    var n := ParseInt(RemoveAll(size, unit));
    if n.Err? then n else Ok(n.value * factor)
  }

  /** The byte count create_test_file derives from its size argument:
      "<n>MB" is n MiB, "<n>GB" is n GiB, anything else is parsed as a plain
      integer. As in the source, every occurrence of the unit is removed
      before parsing, not only the trailing one. */
  function TestFileSize(size: string): (r: Result<int>)
    ensures r.Err? ==> r.error.ValueError?
  {
    if EndsWith(size, "MB") then WithUnit(size, "MB", MiB)
    else if EndsWith(size, "GB") then WithUnit(size, "GB", GiB)
    else ParseInt(size)
  }

  /** What convert_memory_size hands to Set-VMMemory: a byte count, the
      argument itself when it carries no recognised unit, or (for "<p>%")
      a share of the host's free memory, which this model does not compute. */
  datatype MemorySize = Bytes(n: int) | Verbatim(s: string) | HostRelative(percent: string)

  function ConvertMemorySize(memory: string): (r: Result<MemorySize>)
    ensures r.Err? ==> EndsWith(memory, "MB") || EndsWith(memory, "GB")
    ensures EndsWith(memory, "%") && !EndsWith(memory, "MB") && !EndsWith(memory, "GB") ==> r == Ok(HostRelative(memory))
    ensures !EndsWith(memory, "MB") && !EndsWith(memory, "GB") && !EndsWith(memory, "%") ==> r == Ok(Verbatim(memory))
  {
    if EndsWith(memory, "MB") then
      var n := WithUnit(memory, "MB", MiB);
      if n.Err? then Err(n.error) else Ok(Bytes(n.value))
    else if EndsWith(memory, "GB") then
      var n := WithUnit(memory, "GB", GiB);
      if n.Err? then Err(n.error) else Ok(Bytes(n.value))
    else if EndsWith(memory, "%") then Ok(HostRelative(memory))
    else Ok(Verbatim(memory))
  }

  /** A memory argument of set_dynamic_memory: a Python int (megabytes) or a
      string handed to convert_memory_size. */
  datatype MemoryArg = IntArg(megabytes: int) | StrArg(text: string)

  function DynamicMemoryBytes(arg: MemoryArg): Result<MemorySize> {
    match arg
    case IntArg(m) => Ok(Bytes(m * MiB))
    case StrArg(s) => ConvertMemorySize(s)
  }

  /** The size strings a test writes, "<n>MB", "<n>GB" and "<n>", parse back
      to n MiB, n GiB and n bytes. */
  lemma TestFileSizeOfFormatted(n: int)
    ensures TestFileSize(IntToString(n) + "MB") == Ok(n * MiB)
    ensures TestFileSize(IntToString(n) + "GB") == Ok(n * GiB)
    ensures TestFileSize(IntToString(n)) == Ok(n)
  {
    TestFileSizeMB(n);
    TestFileSizeGB(n);
    TestFileSizePlain(n);
  }

  lemma TestFileSizeMB(n: int)
    ensures TestFileSize(IntToString(n) + "MB") == Ok(n * MiB)
  {
    ParsedWithUnitRemoved(n, "MB");
    WithUnitOf(n, "MB", MiB);
  }

  lemma TestFileSizeGB(n: int)
    ensures TestFileSize(IntToString(n) + "GB") == Ok(n * GiB)
  {
    ParsedWithUnitRemoved(n, "GB");
    WithUnitOf(n, "GB", GiB);
  }

  lemma TestFileSizePlain(n: int)
    ensures TestFileSize(IntToString(n)) == Ok(n)
  {
    IntToStringChars(n);
    UnitSuffix(IntToString(n), "MB");
    ParseIntToString(n);
  }

  lemma WithUnitOf(n: int, unit: string, factor: int)
    requires unit == "MB" || unit == "GB"
    ensures WithUnit(IntToString(n) + unit, unit, factor) == Ok(n * factor)
  {
    ParsedWithUnitRemoved(n, unit);
  }

  /** A string of digits and minus signs ends in neither unit; with a unit
      appended it ends in that unit only, and removing the unit gives the
      string back. */
  lemma UnitSuffix(s: string, unit: string)
    requires unit == "MB" || unit == "GB"
    requires forall i :: 0 <= i < |s| ==> s[i] == '-' || IsDigit(s[i])
    ensures !EndsWith(s, "MB") && !EndsWith(s, "GB")
    ensures EndsWith(s + unit, unit) && RemoveAll(s + unit, unit) == s
    ensures unit == "GB" ==> !EndsWith(s + unit, "MB")
  {
    assert (s + unit)[|s|..] == unit;
    assert (s + unit)[|s|] == unit[0];
    if |s| >= 2 {
      assert s[|s| - 2..][1] == s[|s| - 1];
    }
    RemoveAllAppended(s, unit);
  }

  /** convert_memory_size and create_test_file agree on every "MB"/"GB"
      string: both fail, or both yield the same byte count. */
  lemma ConvertAgreesWithTestFile(s: string)
    requires EndsWith(s, "MB") || EndsWith(s, "GB")
    ensures TestFileSize(s).Ok? <==> ConvertMemorySize(s).Ok?
    ensures TestFileSize(s).Ok? ==> ConvertMemorySize(s) == Ok(Bytes(TestFileSize(s).value))
  {
  }

  /** Passing m as a Python int to set_dynamic_memory sets the same number
      of bytes as passing the string "<m>MB". */
  lemma DynamicMemoryIntMatchesMB(m: int)
    ensures DynamicMemoryBytes(IntArg(m)) == DynamicMemoryBytes(StrArg(IntToString(m) + "MB"))
    ensures DynamicMemoryBytes(IntArg(m)) == Ok(Bytes(m * MiB))
  {
    ConvertOfMB(m);
  }

  lemma ConvertOfMB(m: int)
    ensures ConvertMemorySize(IntToString(m) + "MB") == Ok(Bytes(m * MiB))
  {
    ParsedWithUnitRemoved(m, "MB");
    WithUnitOf(m, "MB", MiB);
  }

  /* ---------------- resize_disk ---------------- */

  /** The byte size resize_disk asks Resize-VHD for: the size argument with
      every "GB" removed, parsed, then one GiB more for "grow" and "growfs"
      and one GiB less for "shrink". The size is parsed before the action is
      looked at, so a malformed size wins over an unknown action. */
  function ResizeTarget(size: string, action: string): (r: Result<int>)
    ensures ParseInt(RemoveAll(size, "GB")).Err? ==> r == Err(ValueError(RemoveAll(size, "GB")))
    ensures r.Ok? ==> action in {"grow", "growfs", "shrink"}
    ensures ParseInt(RemoveAll(size, "GB")).Ok? && action !in {"grow", "growfs", "shrink"} ==>
              r == Err(Raised("Disk resize action not recognized"))
  {
    var n := ParseInt(RemoveAll(size, "GB"));
    if n.Err? then Err(n.error)
    else if action == "grow" || action == "growfs" then Ok((n.value + 1) * GiB)
    else if action == "shrink" then Ok((n.value - 1) * GiB)
    else Err(Raised("Disk resize action not recognized"))
  }

  /** "<n>MB" or "<n>GB" ends in its unit, and with the unit removed
      parses back to n. */
  lemma ParsedWithUnitRemoved(n: int, unit: string)
    requires unit == "MB" || unit == "GB"
    ensures EndsWith(IntToString(n) + unit, unit)
    ensures ParseInt(RemoveAll(IntToString(n) + unit, unit)) == Ok(n)
    ensures unit == "GB" ==> !EndsWith(IntToString(n) + unit, "MB")
  {
    IntToStringChars(n);
    UnitSuffix(IntToString(n), unit);
    ParseIntToString(n);
  }

  /** The target sizes for a disk written as "<n>GB". */
  lemma ResizeTargetOf(n: int)
    ensures ResizeTarget(IntToString(n) + "GB", "grow") == Ok((n + 1) * GiB)
    ensures ResizeTarget(IntToString(n) + "GB", "growfs") == Ok((n + 1) * GiB)
    ensures ResizeTarget(IntToString(n) + "GB", "shrink") == Ok((n - 1) * GiB)
  {
    ResizeGrow(n, "grow");
    ResizeGrow(n, "growfs");
    ResizeShrink(n);
  }

  lemma ResizeGrow(n: int, grow: string)
    requires grow == "grow" || grow == "growfs"
    ensures ResizeTarget(IntToString(n) + "GB", grow) == Ok((n + 1) * GiB)
  {
    ParsedWithUnitRemoved(n, "GB");
  }

  lemma ResizeShrink(n: int)
    ensures ResizeTarget(IntToString(n) + "GB", "shrink") == Ok((n - 1) * GiB)
  {
    ParsedWithUnitRemoved(n, "GB");
    assert "shrink" != "grow" && "shrink" != "growfs" by {
      assert "shrink"[0] != "growfs"[0];
    }
  }

  /** Growing a disk of n GB and then shrinking the result, written back in
      GB, gives the original n GiB: the two actions undo each other. */
  lemma ShrinkUndoesGrow(n: int, grow: string)
    requires grow == "grow" || grow == "growfs"
    ensures ResizeTarget(IntToString(n) + "GB", grow) == Ok((n + 1) * GiB)
    ensures ResizeTarget(IntToString(n + 1) + "GB", "shrink") == Ok(n * GiB)
  {
    ResizeTargetOf(n);
    ResizeTargetOf(n + 1);
  }

  /** resize_disk as a whole: the default VHD directory is looked up
      (`located`, whose path only names the disk in the remote commands),
      then the target size is computed, then Resize-VHD is called
      (`resized`), then Get-VHD is asked for the size (`reported`), which
      must be exactly the target. Each remote failure propagates. */
  function ResizeDisk(located: Result<string>, size: string, action: string, resized: Outcome,
                      reported: Result<string>): (r: Result<int>)
    ensures located.Err? ==> r == Err(located.error)
    ensures r.Ok? ==> located.Ok? && ResizeTarget(size, action) == r && resized.Pass? && reported.Ok? &&
                      ParseInt(reported.value) == r
    ensures located.Ok? && ResizeTarget(size, action).Err? ==> r == ResizeTarget(size, action)
    ensures located.Ok? && ResizeTarget(size, action).Ok? && resized.Fail? ==> r == Err(resized.error)
    ensures located.Ok? && ResizeTarget(size, action).Ok? && resized.Pass? && reported.Err? ==> r == Err(reported.error)
    ensures (located.Ok? && ResizeTarget(size, action).Ok? && resized.Pass? && reported.Ok? &&
             ParseInt(reported.value).Ok? && ParseInt(reported.value) != ResizeTarget(size, action)) ==>
              r.Err? && r.error.AssertionFailed?
    ensures (located.Ok? && ResizeTarget(size, action).Ok? && resized.Pass? && reported.Ok? &&
             ParseInt(reported.value) == ResizeTarget(size, action)) ==> r == ResizeTarget(size, action)
  {
    if located.Err? then Err(located.error)
    else
      var target := ResizeTarget(size, action);
      if target.Err? then target
      else if resized.Fail? then Err(resized.error)
      else if reported.Err? then Err(reported.error)
      else
        var check := ParseInt(reported.value);
        if check.Err? then check
        else if target.value != check.value then Err(AssertionFailed("Failed to resize disk to " + IntToString(target.value)))
        else target
  }

  /* ---------------- RAM settings ---------------- */

  /** The StartupBytes set_ram_settings sends for a size in megabytes. */
  function RamBytes(megabytes: int): (r: int)
    ensures r % MiB == 0 && r / MiB == megabytes
  {
    assert megabytes * 1024 * 1024 == megabytes * MiB;
    megabytes * 1024 * 1024
  }

  /** get_ram_settings (and get_ram_status): the setting read from the host,
      parsed, and divided down to whole megabytes with Python 2's floor
      division. */
  function RamMegabytes(reported: string): (r: Result<int>)
    ensures ParseInt(reported).Err? <==> r.Err?
    ensures r.Ok? ==> r.value * MiB <= ParseInt(reported).value < (r.value + 1) * MiB
  {
    var n := ParseInt(reported);
    if n.Err? then Err(n.error)
    else
      var mb := n.value / 1024 / 1024;
      FloorTwice(n.value);
      Ok(mb)
  }

  lemma FloorTwice(n: int)
    ensures (n / 1024 / 1024) * MiB <= n < (n / 1024 / 1024 + 1) * MiB
  {
    var q1 := n / 1024;
    var q2 := q1 / 1024;
    assert q1 * 1024 <= n < q1 * 1024 + 1024;
    assert q2 * 1024 <= q1 < q2 * 1024 + 1024;
    assert q2 * MiB == q2 * 1024 * 1024;
  }

  /** Reading back a RAM size that was set in megabytes gives the same
      number of megabytes. */
  lemma RamSettingsRoundTrip(megabytes: int)
    ensures RamMegabytes(IntToString(RamBytes(megabytes))) == Ok(megabytes)
  {
    ParseIntToString(RamBytes(megabytes));
    assert (megabytes * 1024 * 1024) / 1024 == megabytes * 1024;
    assert (megabytes * 1024) / 1024 == megabytes;
  }

  /* ---------------- disk names ---------------- */

  /** Where a disk is attached: controller type, controller number and
      location (LUN) on that controller. */
  datatype Position = Position(ctrlType: string, ctrlId: nat, ctrlLoc: nat)

  /** add_disk: "<instance>-<ctrlType>-<ctrlId>-<ctrlLoc>-<vhdType>.*". */
  function DiskName(instance: string, pos: Position, vhdType: string): string {
    Join("-", [instance, pos.ctrlType, IntToString(pos.ctrlId), IntToString(pos.ctrlLoc), vhdType]) + ".*"
  }

  /** add_pass_disk: the same pattern with "PassThrough" as the disk type. */
  function PassDiskName(instance: string, pos: Position): string {
    DiskName(instance, pos, "PassThrough")
  }

  /** add_diff_disk: "<instance>-<ctrlType>-<ctrlId>-<ctrlLoc>-Diff.<vhdType>". */
  function DiffDiskName(instance: string, pos: Position, vhdType: string): string {
    Join("-", [instance, pos.ctrlType, IntToString(pos.ctrlId), IntToString(pos.ctrlLoc), "Diff."]) + vhdType
  }

  lemma JoinFive(a: string, b: string, c: string, d: string, e: string)
    ensures Join("-", [a, b, c, d, e]) == a + "-" + b + "-" + c + "-" + d + "-" + e
  {
    assert Join("-", [e]) == e;
    assert [d, e][1..] == [e];
    assert Join("-", [d, e]) == d + "-" + e;
    assert [c, d, e][1..] == [d, e];
    assert Join("-", [c, d, e]) == c + "-" + (d + "-" + e);
    assert [b, c, d, e][1..] == [c, d, e];
    assert Join("-", [b, c, d, e]) == b + "-" + (c + "-" + (d + "-" + e));
    assert [a, b, c, d, e][1..] == [b, c, d, e];
  }

  /** The fields of a disk name, spelled out. */
  lemma DiskNameLayout(instance: string, pos: Position, vhdType: string)
    ensures DiskName(instance, pos, vhdType) ==
              instance + "-" + pos.ctrlType + "-" + IntToString(pos.ctrlId) + "-" + IntToString(pos.ctrlLoc) + "-" + vhdType + ".*"
    ensures DiffDiskName(instance, pos, vhdType) ==
              instance + "-" + pos.ctrlType + "-" + IntToString(pos.ctrlId) + "-" + IntToString(pos.ctrlLoc) + "-Diff." + vhdType
  {
    JoinFive(instance, pos.ctrlType, IntToString(pos.ctrlId), IntToString(pos.ctrlLoc), vhdType);
    JoinFive(instance, pos.ctrlType, IntToString(pos.ctrlId), IntToString(pos.ctrlLoc), "Diff.");
  }

  lemma SameFrame(p: string, m1: string, m2: string, s: string)
    requires p + m1 + s == p + m2 + s
    ensures m1 == m2
  {
    assert |m1| == |m2|;
    assert m1 == (p + m1 + s)[|p|..|p| + |m1|];
    assert m2 == (p + m2 + s)[|p|..|p| + |m2|];
  }

  /** Index of the first c in s, or |s| when there is none. */
  function FirstIndex(s: string, c: char): (k: nat)
    ensures k <= |s|
  {
    if s == [] then 0 else if s[0] == c then 0 else 1 + FirstIndex(s[1..], c)
  }

  lemma {:induction false} FirstIndexAfter(a: string, c: char, b: string)
    requires forall i :: 0 <= i < |a| ==> a[i] != c
    ensures FirstIndex(a + [c] + b, c) == |a|
  {
    if a != [] {
      assert (a + [c] + b)[1..] == a[1..] + [c] + b;
      FirstIndexAfter(a[1..], c, b);
    }
  }

  lemma DashSplitUnique(a1: string, b1: string, a2: string, b2: string)
    requires forall i :: 0 <= i < |a1| ==> a1[i] != '-'
    requires forall i :: 0 <= i < |a2| ==> a2[i] != '-'
    requires a1 + "-" + b1 == a2 + "-" + b2
    ensures a1 == a2 && b1 == b2
  {
    FirstIndexAfter(a1, '-', b1);
    FirstIndexAfter(a2, '-', b2);
    assert a1 == (a1 + "-" + b1)[..|a1|];
    assert a2 == (a2 + "-" + b2)[..|a2|];
    assert b1 == (a1 + "-" + b1)[|a1| + 1..];
    assert b2 == (a2 + "-" + b2)[|a2| + 1..];
  }

  lemma IntToStringInjective(a: int, b: int)
    requires IntToString(a) == IntToString(b)
    ensures a == b
  {
    ParseIntToString(a);
    ParseIntToString(b);
  }

  /** Two disks attached to the same instance on the same controller type,
      with the same disk type, get different names whenever their controller
      number or location differ; so the remove_disk cleanup registered with a
      name removes only the disk it was registered for. Instance names may
      themselves contain dashes. */
  lemma {:induction false} DiskNameInjective(instance: string, p1: Position, p2: Position, vhdType: string)
    requires p1.ctrlType == p2.ctrlType
    requires DiskName(instance, p1, vhdType) == DiskName(instance, p2, vhdType)
    ensures p1 == p2
  {
    var pre := instance + "-" + p1.ctrlType + "-";
    var post := "-" + vhdType + ".*";
    var a1, b1 := IntToString(p1.ctrlId), IntToString(p1.ctrlLoc);
    var a2, b2 := IntToString(p2.ctrlId), IntToString(p2.ctrlLoc);
    DiskNameFrame(instance, p1, vhdType);
    DiskNameFrame(instance, p2, vhdType);
    SameFrame(pre, a1 + "-" + b1, a2 + "-" + b2, post);
    NoDashInNat(p1.ctrlId);
    NoDashInNat(p2.ctrlId);
    DashSplitUnique(a1, b1, a2, b2);
    IntToStringInjective(p1.ctrlId, p2.ctrlId);
    IntToStringInjective(p1.ctrlLoc, p2.ctrlLoc);
  }

  /** A disk name cut into the part before the controller number, the
      number and location, and the rest. */
  lemma DiskNameFrame(instance: string, p: Position, vhdType: string)
    ensures DiskName(instance, p, vhdType) ==
              (instance + "-" + p.ctrlType + "-") + (IntToString(p.ctrlId) + "-" + IntToString(p.ctrlLoc)) +
              ("-" + vhdType + ".*")
  {
    DiskNameLayout(instance, p, vhdType);
  }

  lemma NoDashInNat(n: nat)
    ensures forall i :: 0 <= i < |IntToString(n)| ==> IntToString(n)[i] != '-'
  {
    NatToStringDigits(n);
  }

  /* ---------------- determine_memory_stress_parameters ---------------- */

  datatype Family = FedoraFamily | DebianFamily | SuseFamily

  function FamilyKeywords(f: Family): seq<string> {
    match f
    case FedoraFamily => ["centos", "red hat", "oracle"]
    case DebianFamily => ["debian", "ubuntu"]
    case SuseFamily => ["suse", "sle"]
  }

  predicate MentionsAny(lowered: string, keywords: seq<string>) {
    exists k :: k in keywords && Contains(lowered, k)
  }

  /** The first family (fedora, then debian, then suse) one of whose
      keywords occurs in the lower-cased distribution string. */
  function FamilyOf(lowered: string): (r: Option<Family>)
    ensures r.Some? ==> MentionsAny(lowered, FamilyKeywords(r.value))
    ensures r == Some(DebianFamily) ==> !MentionsAny(lowered, FamilyKeywords(FedoraFamily))
    ensures r == Some(SuseFamily) ==> !MentionsAny(lowered, FamilyKeywords(FedoraFamily)) &&
                                      !MentionsAny(lowered, FamilyKeywords(DebianFamily))
    ensures r.None? <==> (forall f: Family :: !MentionsAny(lowered, FamilyKeywords(f)))
  {
    if MentionsAny(lowered, FamilyKeywords(FedoraFamily)) then Some(FedoraFamily)
    else if MentionsAny(lowered, FamilyKeywords(DebianFamily)) then Some(DebianFamily)
    else if MentionsAny(lowered, FamilyKeywords(SuseFamily)) then Some(SuseFamily)
    else None
  }

  datatype StressParams = StressParams(chunkSize: int, threads: int, duration: int, timeout: int)

  /** The version field: the last space-separated word of the distribution
      string. */
  function Version(distro: string): string {
    Last(Split(distro, ' '))
  }

  /** The dot-separated parts of the version; there is always at least one. */
  function VersionParts(distro: string): (parts: seq<string>)
    ensures |parts| >= 1
  {
    Split(Version(distro), '.')
  }

  /** A fedora-family 6.x release with x > 4, the one case run longer. */
  predicate LateFedoraSix(distro: string) {
    var parts := VersionParts(distro);
    FamilyOf(Lower(distro)) == Some(FedoraFamily) && |parts| >= 2 &&
    ParseInt(parts[0]) == Ok(6) && ParseInt(parts[1]).Ok? && ParseInt(parts[1]).value > 4
  }

  /** determine_memory_stress_parameters as a function of the guest's
      distribution string and its maximum memory in megabytes. Threads are
      the maximum memory in 128 MB chunks; the run lasts 5 seconds per
      thread, or 9 on a fedora-family 6.x release with x > 4, which also
      gets the longer timeout. Hot add is refused on fedora-family releases
      up to 6 otherwise, and on debian-family guests whose version mentions
      "12" or whose name mentions debian. A guest of no known family gets
      the defaults. */
  function StressParameters(distro: string, maximumMemory: int): (r: Result<StressParams>)
    ensures distro == "" ==> r == Err(Raised("Distribution not supported or info not found"))
    ensures r.Ok? ==> r.value.chunkSize == 128 && r.value.threads == maximumMemory / 128
    ensures r.Ok? ==> (r.value.duration == 5 * r.value.threads && r.value.timeout == 4000000) ||
                      (r.value.duration == 9 * r.value.threads && r.value.timeout == 10000000)
    ensures distro != "" ==> (r.Ok? && r.value.timeout == 10000000 <==> LateFedoraSix(distro))
    ensures (FamilyOf(Lower(distro)) == Some(FedoraFamily) && ParseInt(VersionParts(distro)[0]).Ok? &&
             ParseInt(VersionParts(distro)[0]).value <= 6) ==> (r.Ok? <==> LateFedoraSix(distro))
    ensures (FamilyOf(Lower(distro)) == Some(FedoraFamily) && ParseInt(VersionParts(distro)[0]).Ok? &&
             ParseInt(VersionParts(distro)[0]).value > 6) ==> r.Ok? && r.value.timeout == 4000000
    ensures FamilyOf(Lower(distro)) == Some(DebianFamily) ==>
              (r.Err? <==> Contains(Version(distro), "12") || Contains(Lower(distro), "debian"))
    ensures (distro != "" && FamilyOf(Lower(distro)) != Some(FedoraFamily) &&
             FamilyOf(Lower(distro)) != Some(DebianFamily)) ==> r.Ok? && r.value.timeout == 4000000
  {
    if distro == "" then Err(Raised("Distribution not supported or info not found"))
    else
      var lowered := Lower(distro);
      var version := Version(distro);
      var threads := maximumMemory / 128;
      var defaults := StressParams(128, threads, 5 * threads, 4000000);
      var refused := Err(Raised("Hot Add not supported on " + distro));
      match FamilyOf(lowered)
      case Some(FedoraFamily) =>
        var parts := VersionParts(distro);
        var major := ParseInt(parts[0]);
        if major.Err? then Err(major.error)
        else if major.value == 6 then
          if |parts| < 2 then Err(IndexError)
          else
            var minor := ParseInt(parts[1]);
            if minor.Err? then Err(minor.error)
            else if minor.value > 4 then Ok(StressParams(128, threads, 9 * threads, 10000000))
            else refused
        else if major.value <= 6 then refused
        else Ok(defaults)
      case Some(DebianFamily) =>
        if Contains(version, "12") || Contains(lowered, "debian") then refused else Ok(defaults)
      case _ => Ok(defaults)
  }
}
