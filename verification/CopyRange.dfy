/** The range checks in front of copy_file_range: rw_verify_area, generic_copy_file_checks,
    generic_write_check_limits and vfs_copy_file_range in Kernel/fs/read_write.c.  loff_t is a signed
    and size_t an unsigned 64-bit integer, and both wrap. */
module CopyRange {
  import opened Common
  import opened Errno

  const W := 0x1_0000_0000_0000_0000
  const HALF := 0x8000_0000_0000_0000
  const RLIM_INFINITY := W - 1
  const MAX_NON_LFS := 0x7fff_ffff

  newtype u64 = x: int | 0 <= x < 0x1_0000_0000_0000_0000
  newtype s64 = x: int | -0x8000_0000_0000_0000 <= x < 0x8000_0000_0000_0000

  /** The value of a sum or difference of two 64-bit numbers in unsigned arithmetic. */
  function Unsigned(x: int): u64
    requires -W <= x < 2 * W
  {
    (if x < 0 then x + W else if x >= W then x - W else x) as u64
  }

  /** The same in signed arithmetic. */
  function Signed(x: int): s64
    requires -W <= x < 2 * W
  {
    var u := Unsigned(x) as int;
    (if u >= HALF then u - W else u) as s64
  }

  /** What the checks look at in an open file.
      - copyMethod: the file system's own copy_file_range, if it has one
      - size:       i_size_read
      - maxBytes:   s_maxbytes of the superblock */
  datatype File = File(
    inode: nat, superblock: nat, isDir: bool, isRegular: bool, readable: bool, writable: bool, append: bool,
    immutable: bool, swapFile: bool, copyMethod: Option<nat>, size: s64, maxBytes: s64,
    largeFile: bool, unsignedOffsets: bool)

  /** - limit:        rlimit(RLIMIT_FSIZE)
      - readVerdict, writeVerdict: what the security and notification hooks answer */
  datatype Env = Env(limit: u64, readVerdict: int, writeVerdict: int)

  datatype Outcome = Error(code: int) | Nothing | Proceed(len: u64)

  // ----- the checks

  function GenericFileRwChecks(fin: File, fout: File): int {
    if fin.isDir || fout.isDir then -EISDIR
    else if !fin.isRegular || !fout.isRegular then -EINVAL
    else if !fin.readable || !fout.writable || fout.append then -EBADF
    else 0
  }

  function MinSigned(a: s64, b: s64): s64 {
    if a <= b then a else b
  }

  /** generic_write_check_limits: shortens count, or fails if nothing may be written at pos. */
  method GenericWriteCheckLimits(f: File, pos: s64, count: s64, rlimit: u64) returns (ret: int, short: s64)
    requires f.maxBytes >= 0
    ensures ret == 0 || ret == -EFBIG
    ensures pos >= 0 && Readable(rlimit) ==>
              && (ret == 0 <==> Room(f, pos as int, rlimit) > 0)
              && (ret == 0 ==> short as int == Min(count as int, Room(f, pos as int, rlimit)))
    ensures pos >= 0 && !Readable(rlimit) ==> ret == -EFBIG
    ensures pos < 0 ==> (ret == 0 <==> Readable(rlimit) || pos as int + W < rlimit as int)
    ensures pos < 0 && ret == 0 ==> short as int == Min(count as int, WrappedRoom(f, pos as int, rlimit))
  {
    var maxSize := f.maxBytes;
    var limit := Signed(rlimit as int);
    short := count;
    if Unsigned(limit as int) as int != RLIM_INFINITY {
      if pos >= limit {
        return -EFBIG, short;
      }
      short := MinSigned(short, Signed(limit as int - pos as int));
    }
    if !f.largeFile {
      maxSize := MAX_NON_LFS as s64;
    }
    if pos >= maxSize {
      return -EFBIG, short;
    }
    short := MinSigned(short, Signed(maxSize as int - pos as int));
    return 0, short;
  }

  /** The checks of generic_copy_file_checks that do not look at the range. */
  function FileError(fin: File, fout: File, splice: bool): int {
    if GenericFileRwChecks(fin, fout) != 0 then GenericFileRwChecks(fin, fout)
    else if !splice && fout.copyMethod.Some? && fin.copyMethod != fout.copyMethod then -EXDEV
    else if !splice && fout.copyMethod.None? && fin.superblock != fout.superblock then -EXDEV
    else if fout.immutable then -EPERM
    else if fin.swapFile || fout.swapFile then -ETXTBSY
    else 0
  }

  /** Which files may be copied: two regular ones, readable and writable but not only by appending, neither
      immutable nor in use for swap, and on one file system unless the copy goes through a pipe or
      both belong to the same kind of file system. */
  lemma FilesAcceptable(fin: File, fout: File, splice: bool)
    ensures FileError(fin, fout, splice) == 0 <==>
            && !fin.isDir && !fout.isDir && fin.isRegular && fout.isRegular
            && fin.readable && fout.writable && !fout.append
            && (splice || fin.superblock == fout.superblock || fout.copyMethod.Some?)
            && (splice || fout.copyMethod.None? || fin.copyMethod == fout.copyMethod)
            && !fout.immutable && !fin.swapFile && !fout.swapFile
  {
  }

  /** The unsigned overlap test of generic_copy_file_checks. */
  predicate Overlaps(posIn: s64, posOut: s64, count: u64) {
    Unsigned(posOut as int + count as int) > Unsigned(posIn as int) &&
    Unsigned(posOut as int) < Unsigned(posIn as int + count as int)
  }

  function MinUnsigned(a: u64, b: u64): u64 {
    if a <= b then a else b
  }

  /** generic_copy_file_checks: an error, or the shortened length. */
  method GenericCopyFileChecks(fin: File, posIn: s64, fout: File, posOut: s64, len: u64, splice: bool, env: Env)
    returns (ret: int, short: u64)
    requires fin.size >= 0 && fout.maxBytes >= 0
    ensures ret <= 0 && (ret == 0 ==> FileError(fin, fout, splice) == 0)
    ensures posIn >= 0 && posOut >= 0 ==>
              (ret == 0 <==>
                 && FileError(fin, fout, splice) == 0
                 && posIn as int + len as int < W && posOut as int + len as int < W
                 && Readable(env.limit) && Room(fout, posOut as int, env.limit) > 0
                 && var n := Window(fin, posIn as int, fout, posOut as int, len as int, env);
                    (fin.inode == fout.inode ==> Disjoint(posIn as int, posOut as int, n)))
    ensures posIn >= 0 && posOut >= 0 && ret == 0 ==>
              short as int == Window(fin, posIn as int, fout, posOut as int, len as int, env)
    ensures posIn >= 0 && posOut >= 0 && !Readable(env.limit) && FileError(fin, fout, splice) == 0
            && posIn as int + len as int < W && posOut as int + len as int < W ==>
              ret == -EFBIG
  {
    short := len;
    ret := FileError(fin, fout, splice);
    if ret != 0 {
      return;
    }
    if || Unsigned(posIn as int + len as int) < Unsigned(posIn as int)
       || Unsigned(posOut as int + len as int) < Unsigned(posOut as int) {
      return -EOVERFLOW, short;
    }
    var count := len;
    if posIn >= fin.size {
      count := 0;
    } else {
      count := MinUnsigned(count, Unsigned(fin.size as int - Unsigned(posIn as int) as int));
    }
    var signedCount;
    ret, signedCount := GenericWriteCheckLimits(fout, posOut, Signed(count as int), env.limit);
    if ret != 0 {
      return;
    }
    count := Unsigned(signedCount as int);
    if fin.inode == fout.inode && Overlaps(posIn, posOut, count) {
      return -EINVAL, short;
    }
    short := count;
    return 0, short;
  }

  /** rw_verify_area for one file. */
  method RwVerifyArea(f: File, pos: s64, count: u64, verdict: int) returns (ret: int)
    ensures !f.unsignedOffsets ==>
              ret == if 0 <= pos as int && pos as int + count as int < HALF then verdict else -EINVAL
    ensures f.unsignedOffsets ==>
              ret == if count as int >= HALF then -EINVAL
                     else if Unsigned(pos as int) as int + count as int >= W then -EOVERFLOW
                     else verdict
  {
    if Signed(count as int) < 0 {
      return -EINVAL;
    }
    if pos < 0 {
      if !f.unsignedOffsets {
        return -EINVAL;
      }
      if count >= Unsigned(-(pos as int)) {
        return -EOVERFLOW;
      }
    } else if Signed(pos as int + count as int) < 0 {
      if !f.unsignedOffsets {
        return -EINVAL;
      }
    }
    return verdict;
  }

  // ----- what the checks mean, without any machine arithmetic

  function Min(a: int, b: int): int {
    if a <= b then a else b
  }

  /** How many bytes may be written at pos: up to the size limit and the file-size maximum. */
  function Room(f: File, pos: int, rlimit: u64): int {
    var upToMax := (if f.largeFile then f.maxBytes as int else MAX_NON_LFS) - pos;
    if rlimit as int == RLIM_INFINITY then upToMax else Min(upToMax, rlimit as int - pos)
  }

  /** The same of a negative position, where the distances are taken in 64 bits and may turn negative
      themselves. */
  function WrappedRoom(f: File, pos: int, rlimit: u64): int
    requires -HALF <= pos < 0 && f.maxBytes >= 0
  {
    var max := if f.largeFile then f.maxBytes as int else MAX_NON_LFS;
    var upToMax := Wrapped(max - pos);
    if rlimit as int == RLIM_INFINITY then upToMax else Min(upToMax, Wrapped(rlimit as int - pos))
  }

  /** The number in the signed range that differs by a multiple of 2^64. */
  function Wrapped(x: int): (y: int)
    requires 0 <= x < 2 * W
    ensures -HALF <= y < HALF && (y == x || y == x - W || y == x - 2 * W)
  {
    if x < HALF then x else if x < HALF + W then x - W else x - 2 * W
  }

  /** The size limits that survive in a signed variable. */
  predicate Readable(rlimit: u64) {
    rlimit as int < HALF || rlimit as int == RLIM_INFINITY
  }

  /** How many of len bytes the copy is shortened to. */
  function Window(fin: File, posIn: int, fout: File, posOut: int, len: int, env: Env): int {
    var upToEof := if posIn >= fin.size as int then 0 else Min(len, fin.size as int - posIn);
    Min(upToEof, Room(fout, posOut, env.limit))
  }

  predicate Disjoint(a: int, b: int, n: int) {
    n == 0 || a + n <= b || b + n <= a
  }

  /** A copy of n bytes that reads within the file, writes within all limits and does not overlap. */
  predicate Safe(fin: File, posIn: int, fout: File, posOut: int, n: int, env: Env) {
    && posIn >= 0 && posOut >= 0
    && posIn + n <= fin.size as int
    && (env.limit as int == RLIM_INFINITY || posOut + n <= env.limit as int)
    && posOut + n <= (if fout.largeFile then fout.maxBytes as int else MAX_NON_LFS)
    && (fin.inode == fout.inode ==> posIn + n <= posOut || posOut + n <= posIn)
  }

  /** What the request has to meet besides the limits: flags, files, hooks and no wrap-around. */
  predicate Acceptable(fin: File, posIn: s64, fout: File, posOut: s64, len: u64, badFlags: bool, splice: bool, env: Env) {
    && !badFlags && FileError(fin, fout, splice) == 0 && env.readVerdict == 0 && env.writeVerdict == 0
    && posIn >= 0 && posOut >= 0
    && posIn as int + len as int < W && posOut as int + len as int < W
  }

  /** The part of vfs_copy_file_range that decides whether and how much to copy.  For files with
      signed offsets and a size limit that a signed variable can hold it proceeds exactly if the
      request is acceptable and safe, with exactly the bytes that are there to read and may be
      written.  Under a larger finite limit, which allows more, it refuses every request. */
  method VfsCopyFileRange(fin: File, posIn: s64, fout: File, posOut: s64, len: u64, badFlags: bool, splice: bool, env: Env)
    returns (r: Outcome)
    requires fin.size >= 0 && fout.maxBytes >= 0
    ensures !fin.unsignedOffsets && !fout.unsignedOffsets && r.Proceed? ==>
              && r.len > 0 && Safe(fin, posIn as int, fout, posOut as int, r.len as int, env)
              && r.len as int == Window(fin, posIn as int, fout, posOut as int, len as int, env)
    ensures !fin.unsignedOffsets && !fout.unsignedOffsets && Readable(env.limit) ==>
              (r.Proceed? <==>
                 && Acceptable(fin, posIn, fout, posOut, len, badFlags, splice, env)
                 && var n := Window(fin, posIn as int, fout, posOut as int, len as int, env);
                 n > 0 && Safe(fin, posIn as int, fout, posOut as int, n, env))
    ensures !fin.unsignedOffsets && !fout.unsignedOffsets && !Readable(env.limit) ==>
              r.Error? && (Acceptable(fin, posIn, fout, posOut, len, badFlags, splice, env) ==> r == Error(-EFBIG))
  {
    if badFlags {
      return Error(-EINVAL);
    }
    var ret, short := GenericCopyFileChecks(fin, posIn, fout, posOut, len, splice, env);
    if ret != 0 {
      return Error(ret);
    }
    ret := RwVerifyArea(fin, posIn, short, env.readVerdict);
    if ret != 0 {
      return Error(ret);
    }
    ret := RwVerifyArea(fout, posOut, short, env.writeVerdict);
    if ret != 0 {
      return Error(ret);
    }
    if short == 0 {
      return Nothing;
    }
    return Proceed(short);
  }

  /** A file of ten bytes that anybody may read and write. */
  const SMALL := File(1, 1, false, true, true, true, false, false, false, None, 10, 100, true, false)

  /** The limit 2^63 allows a copy that the smaller limit 2^63 - 1 lets through, and it is refused. */
  method HugeLimitRefuses() returns (below: Outcome, at: Outcome)
    ensures Readable((HALF - 1) as u64) && !Readable(HALF as u64)
    ensures below == Proceed(1)
    ensures at == Error(-EFBIG) && Safe(SMALL, 0, SMALL.(inode := 2), 0, 1, Env(HALF as u64, 0, 0))
  {
    below := VfsCopyFileRange(SMALL, 0, SMALL.(inode := 2), 0, 1, false, false, Env((HALF - 1) as u64, 0, 0));
    at := VfsCopyFileRange(SMALL, 0, SMALL.(inode := 2), 0, 1, false, false, Env(HALF as u64, 0, 0));
  }
}
