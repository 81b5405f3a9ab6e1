/** internal/auth/verifier.go: the cache as an object, one call at a time. */
module Verifier {
  import opened Outcomes
  import opened VerifierProtocol

  /** VerifyHash with its error folded in: None stands for a malformed hash. */
  type Checker = (string, string) -> Option<bool>

  class HashVerifier {
    var hash: string
    var mtime: int

    constructor ()
      ensures hash == ""
    {
      hash, mtime := "", 0;
    }

    /** Leaves the file's hash in the cache, unless the cached mtime matches and a hash is
        already there. */
    method ReloadIfChanged(file: Version)
      modifies this
      ensures file.Absent? ==> hash == "" && mtime == 0
      ensures file.File? ==> mtime == file.mtime
      ensures file.File? && old(mtime) == file.mtime && old(hash) != "" ==> hash == old(hash)
      ensures file.File? && (old(mtime) != file.mtime || old(hash) == "") ==> hash == file.hash
    {
      if file.Absent? {
        hash := "";
        mtime := 0;
        return;
      }
      if file.mtime == mtime && hash != "" {
        return;
      }
      var got := file.hash;
      if got == "" {
        hash := "";
        mtime := file.mtime;
        return;
      }
      hash := got;
      mtime := file.mtime;
    }

    /** A request is accepted exactly when there is a cached hash after the reload and it matches:
        nothing cached, a missing file and a malformed hash all reject. The cached hash is the
        current file's exactly when the cache was coherent with the file before. */
    method Verify(presented: string, file: Version, check: Checker) returns (ok: bool)
      modifies this
      ensures ok <==> hash != "" && check(presented, hash) == Some(true)
      ensures hash == "" ==> !ok
      ensures file.Absent? ==> !ok && hash == ""
      ensures check(presented, hash).None? ==> !ok
      ensures hash == (if file.File? then file.hash else "") <==> Coherent(old(hash), old(mtime), file)
      ensures Coherent(old(hash), old(mtime), file) ==>
                && Coherent(hash, mtime, file)
                && (ok <==> file.File? && file.hash != "" && check(presented, file.hash) == Some(true))
      ensures !Coherent(old(hash), old(mtime), file) ==> hash == old(hash) && mtime == old(mtime)
    {
      ReloadIfChanged(file);
      if hash == "" {
        return false;
      }
      var verdict := check(presented, hash);
      if verdict.None? {
        return false;
      }
      return verdict.value;
    }
  }
}
