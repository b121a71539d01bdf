/**
 * The fake authorization server's two queries, as the loops the tests run:
 * each scans the server string rune by rune and may stop early.
 * The request context and the caller's identity are ignored by both queries
 * and are not parameters here.
 */
module FakeServer {
  import opened FakeServerSpec

  datatype Option<T> = None | Some(value: T)

  /**
   * Is the caller an admin of `nnm`? Scans the string until it meets `nnm`
   * (yes) or a colon (no); the name test comes first, so a colon matches the
   * name ":" before the scan stops.
   */
  method IsAdmin(f: Server, nnm: Name) returns (admin: bool, err: Option<string>)
    ensures admin == Admin(f, nnm)
    ensures err == None
  {
    for i := 0 to |f|
      invariant forall j :: 0 <= j < i ==> f[j] != ':' && nnm != [f[j]]
    {
      var n := f[i];
      if nnm == [n] {
        assert i <= FirstColon(f);
        assert AdminScope(f)[i] == n;
        return true, None;
      }
      if n == ':' {
        assert FirstColon(f) == i;
        assert forall j :: 0 <= j <= i ==> nnm != [AdminScope(f)[j]];
        return false, None;
      }
    }
    assert AdminScope(f) == f;
    return false, None;
  }

  /**
   * Does `nnm` exist? Skips every colon and every rune before the first colon;
   * answers no as soon as a later rune equals `nnm`, and yes otherwise.
   */
  method Exists(f: Server, nnm: Name) returns (found: bool, err: Option<string>)
    ensures found == !Missing(f, nnm)
    ensures err == None
  {
    var foundColon := false;
    for i := 0 to |f|
      invariant foundColon <==> FirstColon(f) < i
      invariant forall j :: FirstColon(f) < j < i && f[j] != ':' ==> nnm != [f[j]]
    {
      var n := f[i];
      if n == ':' {
        foundColon := true;
        continue;
      }
      if !foundColon {
        continue;
      }
      if nnm == [n] {
        assert MissingHalf(f)[i - FirstColon(f) - 1] == n;
        return false, None;
      }
    }
    if FirstColon(f) < |f| {
      forall j | 0 <= j < |MissingHalf(f)| ensures [MissingHalf(f)[j]] != nnm || nnm[0] == ':' {
        assert MissingHalf(f)[j] == f[FirstColon(f) + 1 + j];
      }
    }
    return true, None;
  }
}
