/**
 Which disks share a lock (Get_resource_name of pkg/lockman/lockman.go on the
 paths that pkg/vmdef/vmdef.go accepts), and what that means for updates.
 */
module ResourceNames {
  import opened GoTypes
  import opened Vmdef
  import opened Lifecycle

  // -------------------------------------------------------------- clean paths

  /** s[i..j] is what stands between two slashes, or between a slash and an end of s. */
  predicate IsComponent(s: string, i: int, j: int) {
    && 0 <= i <= j <= |s| && '/' !in s[i..j]
    && (i == 0 || s[i - 1] == '/') && (j == |s| || s[j] == '/')
  }

  predicate Plain(component: string) { component != "" && component != "." && component != ".." }

  ghost predicate AllPlain(s: string) { forall i, j | IsComponent(s, i, j) :: Plain(s[i..j]) }

  predicate FirstSlash(s: string, n: nat) {
    n <= |s| && '/' !in s[..n] && (n < |s| ==> s[n] == '/')
  }

  lemma FirstComponent(s: string, n: nat, i: int, j: int)
    requires FirstSlash(s, n) && IsComponent(s, i, j) && i <= n
    ensures i == 0 && j == n
  {
    assert forall x | 0 <= x < n :: s[x] == s[..n][x];
    assert forall x | i <= x < j :: s[x] == s[i..j][x - i];
  }

  lemma LaterComponent(s: string, n: nat, i: int, j: int)
    requires n < |s| && s[n] == '/' && i > n
    ensures IsComponent(s, i, j) <==> IsComponent(s[n + 1..], i - n - 1, j - n - 1)
  {
    if i <= j <= |s| { assert s[i..j] == s[n + 1..][i - n - 1..j - n - 1]; }
  }

  lemma PlainRest(s: string, n: nat)
    requires FirstSlash(s, n) && AllPlain(s)
    ensures Plain(s[..n]) && (n < |s| ==> AllPlain(s[n + 1..]))
  {
    assert IsComponent(s, 0, n);
    if n < |s| {
      var rest := s[n + 1..];
      forall i, j | IsComponent(rest, i, j) ensures Plain(rest[i..j]) {
        LaterComponent(s, n, i + n + 1, j + n + 1);
        assert IsComponent(s, i + n + 1, j + n + 1) && s[i + n + 1..j + n + 1] == rest[i..j];
      }
    }
  }

  lemma PlainWhole(s: string, n: nat)
    requires FirstSlash(s, n) && Plain(s[..n]) && (n < |s| ==> AllPlain(s[n + 1..]))
    ensures AllPlain(s)
  {
    forall i, j | IsComponent(s, i, j) ensures Plain(s[i..j]) {
      if i <= n {
        FirstComponent(s, n, i, j);
      } else {
        LaterComponent(s, n, i, j);
        assert s[i..j] == s[n + 1..][i - n - 1..j - n - 1];
      }
    }
  }

  /** filepath.Clean leaves a path alone exactly if no component of it is empty, "." or "..". */
  lemma {:induction false} CleanIff(s: string)
    ensures CleanComponents(s) <==> AllPlain(s)
    decreases |s|
  {
    var n := IndexOf(s, '/');
    if n < |s| { CleanIff(s[n + 1..]); }
    if AllPlain(s) { PlainRest(s, n); }
    if Plain(s[..n]) && (n < |s| ==> AllPlain(s[n + 1..])) { PlainWhole(s, n); }
  }

  /** A clean path has no slash right after another, nor at its end. */
  lemma NoEmptyComponent(path: string, i: nat)
    requires CleanAbs(path) && 0 < i < |path| && path[i] == '/'
    ensures i + 1 < |path| && path[i + 1] != '/'
  {
    var s := path[1..];
    CleanIff(s);
    assert s[i - 1] == '/';
    assert IsComponent(s, i, i) ==> !Plain(s[i..i]);
  }

  // --------------------------------------------------------------------- names

  /** The md5 of two strings is never the same. */
  ghost predicate TellsApart(hash: string -> string) { forall s, t :: hash(s) == hash(t) ==> s == t }

  predicate IsFile(device: int) { device == DEVICE_DISK || device == DEVICE_CDROM }

  /** Two disks or cdroms with acceptable paths share a lock exactly if they have one path: the
      directories of a path count, and no path under DS_DIR is taken for one outside. */
  lemma FilesShareIff(hash: string -> string, a: int, p: string, b: int, q: string)
    requires TellsApart(hash) && IsFile(a) && IsFile(b) && PathDriver(p) != "" && PathDriver(q) != ""
    ensures ResourceName(hash, a, p) == ResourceName(hash, b, q) <==> p == q
  {
    AcceptedIsClean(p);
    AcceptedIsClean(q);
    if HasPrefix(p, DS_DIR) && !HasPrefix(q, DS_DIR) { TrimmedIsRelative(p, q); }
    if HasPrefix(q, DS_DIR) && !HasPrefix(p, DS_DIR) { TrimmedIsRelative(q, p); }
    if HasPrefix(p, DS_DIR) && HasPrefix(q, DS_DIR) { SameTail(p, q, DS_DIR); }
  }

  lemma AcceptedIsClean(p: string)
    requires PathDriver(p) != ""
    ensures CleanAbs(p)
  {
  }

  lemma SameTail(p: string, q: string, prefix: string)
    requires HasPrefix(p, prefix) && HasPrefix(q, prefix)
    ensures p[|prefix|..] == q[|prefix|..] <==> p == q
  {
    assert p == prefix + p[|prefix|..] && q == prefix + q[|prefix|..];
  }

  lemma TrimmedIsRelative(p: string, q: string)
    requires CleanAbs(p) && CleanAbs(q) && HasPrefix(p, DS_DIR)
    ensures p[|DS_DIR|..] != q
  {
    assert p[|DS_DIR| - 1] == DS_DIR[|DS_DIR| - 1];
    NoEmptyComponent(p, |DS_DIR| - 1);
    assert p[|DS_DIR|..][0] != q[0];
  }

  /** The name under which udev lists the LUN with the given key. */
  predicate NamesLun(name: string, key: string) {
    || name == "dm-uuid-mpath-" + key || name == "scsi-" + key || name == "nvme-" + key
    || (key != "" && key[0] == '3' && name == "wwn-0x" + key[1..])
    || (name == key && !Prefixed(name))
  }

  predicate Prefixed(name: string) {
    || HasPrefix(name, "dm-uuid-mpath-") || HasPrefix(name, "scsi-") || HasPrefix(name, "nvme-")
    || HasPrefix(name, "wwn-0x")
  }

  /** Every name belongs to one LUN, whose key is its lock. */
  lemma LunKeyIff(name: string, key: string)
    ensures LunKey(name) == key <==> NamesLun(name, key)
  {
    assert HasPrefix(name, "dm-uuid-mpath-") ==> name[0] == 'd';
    assert HasPrefix(name, "scsi-") ==> name[0] == 's';
    assert HasPrefix(name, "nvme-") ==> name[0] == 'n';
    assert HasPrefix(name, "wwn-0x") ==> name[0] == 'w';
    PrefixIff(name, "dm-uuid-mpath-", key);
    PrefixIff(name, "scsi-", key);
    PrefixIff(name, "nvme-", key);
    if key != "" {
      PrefixIff(name, "wwn-0x", key[1..]);
      assert key == [key[0]] + key[1..];
    }
  }

  lemma PrefixIff(name: string, prefix: string, rest: string)
    ensures name == prefix + rest <==> HasPrefix(name, prefix) && name[|prefix|..] == rest
  {
    if HasPrefix(name, prefix) { assert name == prefix + name[|prefix|..]; }
  }

  /** Two LUNs share a lock exactly if their device names belong to one LUN, whatever their
      directories. */
  lemma LunsShareIff(hash: string -> string, dir: string, a: string, dir': string, b: string)
    requires a != "" && '/' !in a && b != "" && '/' !in b
    ensures ResourceName(hash, DEVICE_LUN, dir + "/" + a) == ResourceName(hash, DEVICE_LUN, dir' + "/" + b)
      <==> exists key :: NamesLun(a, key) && NamesLun(b, key)
  {
    BaseOf(dir, a);
    BaseOf(dir', b);
    LunKeyIff(a, LunKey(a));
    LunKeyIff(b, LunKey(b));
    LunKeyIff(b, LunKey(a));
    if key :| NamesLun(a, key) && NamesLun(b, key) {
      LunKeyIff(a, key);
      LunKeyIff(b, key);
    }
  }

  // ---------------------------------------------------- what updates have to keep

  function NamedBy(hash: string -> string): NameOf {
    (device: int, path: string) => ResourceName(hash, device, path)
  }

  predicate IsLun(d: Disk) { d.device == DEVICE_LUN }

  /** Validated disks, whose LUNs have one path each and no lock name of a file. */
  ghost predicate Distinct(hash: string -> string, ds: seq<Disk>) {
    && TellsApart(hash) && (forall d <- ds :: ValidateDisk(d).Pass?)
    && (forall d, e | d in ds && e in ds && IsLun(d) :: SeparateLun(hash, d, e))
  }

  predicate SeparateLun(hash: string -> string, lun: Disk, e: Disk) {
    ResourceName(hash, lun.device, lun.path) == ResourceName(hash, e.device, e.path) ==>
      (IsLun(e) && e.path == lun.path)
  }

  /** Among such disks a lock is for one path, and for files or for LUNs. */
  lemma NamesTell(hash: string -> string, ds: seq<Disk>, d: Disk, e: Disk)
    requires Distinct(hash, ds) && d in ds && e in ds
    ensures Key(NamedBy(hash), d) == Key(NamedBy(hash), e) <==> d.path == e.path && IsLun(d) == IsLun(e)
  {
    assert ValidateDisk(d).Pass? && ValidateDisk(e).Pass?;
    if IsLun(d) {
      assert SeparateLun(hash, d, e);
    } else if IsLun(e) {
      assert SeparateLun(hash, e, d);
    } else {
      FilesShareIff(hash, d.device, d.path, e.device, e.path);
    }
  }

  /** Managed disks of retained paths were managed before, and are LUNs if they were. */
  ghost predicate KeepsKinds(xs: seq<Disk>, next: seq<Disk>) {
    forall d | d in next && Managed(d) && InPaths(d.path, xs) ::
      exists e :: e in xs && Managed(e) && e.path == d.path && IsLun(e) == IsLun(d)
  }

  /** Names are for one path, and for files or for LUNs. */
  ghost predicate Tells(k: NameOf, ds: seq<Disk>) {
    forall d, e | d in ds && e in ds :: Key(k, d) == Key(k, e) <==> d.path == e.path && IsLun(d) == IsLun(e)
  }

  lemma KeepingKindsKeepsLocks(k: NameOf, xs: seq<Disk>, next: seq<Disk>)
    requires Tells(k, xs + next)
    ensures OnePathPerName(k, xs + next) && (KeepsLocks(k, xs, next) <==> KeepsKinds(xs, next))
  {
    forall d, e | d in next && e in xs
      ensures e.path == d.path ==> (Key(k, e) == Key(k, d) <==> IsLun(e) == IsLun(d))
    {
      assert d in xs + next && e in xs + next;
    }
  }

  /** What a caller has to look at before an update of a VM that owns what it needs: it is backed
      exactly if retained paths stay managed and no LUN turns into a file, or a file into a LUN. */
  lemma BackedIffKindsKept(hash: string -> string, xs: seq<Disk>, next: seq<Disk>)
    requires Distinct(hash, xs + next)
    ensures Backed(NamedBy(hash), Needs(NamedBy(hash), xs), xs, next) <==> KeepsKinds(xs, next)
  {
    var k, all := NamedBy(hash), xs + next;
    forall d, e | d in all && e in all
      ensures Key(k, d) == Key(k, e) <==> d.path == e.path && IsLun(d) == IsLun(e)
    {
      NamesTell(hash, all, d, e);
    }
    KeepingKindsKeepsLocks(k, xs, next);
    BackedIffLocksKept(k, xs, next);
  }
}
