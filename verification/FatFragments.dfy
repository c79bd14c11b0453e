/** The whole of a fat merge, from the two files to the members read back from the
    merged one (provisioning/fat_cfm.py:84-92, 121-154). */
module FatFragments {
  import opened Bytes
  import opened Layout
  import opened ResourceFork
  import opened ForkRoundTrip
  import opened FatMerge
  import opened FatMergeProof
  import opened FatResources

  /** The member that X and Y list K-th between them, and the fork it is of. */
  function Before(x: Input, y: Input, k: nat): (Member, seq<byte>)
    requires k < |x.members| + |y.members|
  {
    if k < |x.members| then (x.members[k], x.file.data) else (y.members[k - |x.members|], y.file.data)
  }

  /** A merge keeps every fragment, where the first file's 'cfrg' starts within 24
      bits of the resources that file lists. What is read back from the merged
      file then lists the members of both in order if and only if their sizes
      read as their lengths where they follow one another; the K-th is for the
      same machine as before, and selects from the merged data fork just what it
      selected from its own: always, if it is the second file's, and if it is
      the first's exactly when it stays within that file's fork. */
  lemma MergeKeepsFragments(a: seq<byte>, b: seq<byte>, x: Input, y: Input, out: seq<byte>, k: nat)
    requires Reads(a, x) && Reads(b, y) && Merge(a, b) == Done(out) && k < |x.members| + |y.members|
    ensures CfrgOffset(x.rs) < 0x100_0000 ==>
              var file := ReadMacBinary(out);
              && file.Some?
              && var rs := ReadFork(file.value.rsrc);
                 && rs.Some? && FindCfrg(rs.value).Some?
                 && Kept(file.value, FindCfrg(rs.value).value, x, y, k)
  {
    hide Merge, ReadMacBinary, ReadFork, MergedMembers, FindCfrg, Kept, Joined, Packs, CfrgOffset, DataSeen;
    hide Within, ShowAll, SizesWith, NamesClear, ByType, CfrgSize, Stamped, IsClassic, Members;
    MergedFile(a, b, x, y, out);
    MergedResources(a, b, x, y, out);
    if CfrgOffset(x.rs) < 0x100_0000 {
      KeptMembers(ReadMacBinary(out).value, x, y, k);
    }
  }

  /** Of the merged FILE, with CFRG in it: the members it lists, and what the K-th
      selects. */
  predicate Kept(file: MacBinary, cfrg: seq<byte>, x: Input, y: Input, k: nat)
    requires k < |x.members| + |y.members|
  {
    var moved := MergedMembers(x.members, x.file.data, y.members, y.file.data);
    var (m, fork) := Before(x, y, k);
    && moved.Done? && |moved.value| == |x.members| + |y.members|
    && (Members(cfrg) == Some(moved.value) <==> SizesRead(x.members + y.members, 0))
    && |moved.value[k]| == |m| >= 32 && moved.value[k][..24] == m[..24]
    && (Selected(file.data, moved.value[k]) == Selected(fork, m) <==>
        k >= |x.members| || Stays(m, x.file.data, y.file.data))
  }

  lemma KeptMembers(file: MacBinary, x: Input, y: Input, k: nat)
    requires |x.cfrg| >= 32 && MergedMembers(x.members, x.file.data, y.members, y.file.data).Done?
    requires file.data == Joined(x.file.data, y.file.data) && k < |x.members| + |y.members|
    ensures var ms := MergedMembers(x.members, x.file.data, y.members, y.file.data).value;
            Kept(file, NewCfrg(x.cfrg, ms), x, y, k)
  {
    hide MergedMembers, Members, SizesRead, Selected, Joined, Moved, NewCfrg, Stays, Offset, Length;
    var ma, mb, da, db := x.members, y.members, x.file.data, y.file.data;
    FragmentsKeptIff(ma, da, mb, db, x.cfrg);
    MergedAt(ma, da, mb, db, k);
    if k < |ma| {
      MovedFields(ma[k], 0, |da|);
      FirstSelectsTheSameIff(ma[k], da, db);
    } else {
      MovedFields(mb[k - |ma|], BaseB(da), |db|);
      SecondSelectsTheSame(mb[k - |ma|], da, db);
    }
  }
}
