/** The multipart upload of an encrypted recording (api/client/client.go:2993-3048). */
module Upload {
  import opened Options

  type Error = string
  type Bytes = string

  /** What the iterator yields: a part or an error. It ends after the last element. */
  datatype Yield = Part(bytes: Bytes) | Broken(error: Error)

  /** The server's reply to the upload of one part. */
  datatype Stored = Stored(etag: string) | Rejected(error: Error)

  /** The server's replies: nil errors are `None`. */
  datatype Server = Server(create: Option<Error>, upload: nat -> Stored, complete: Option<Error>)

  datatype Rpc = CreateUpload | UploadPart(number: nat, bytes: Bytes, isLast: bool) | CompleteUpload(etags: seq<string>)

  const EMPTY_UPLOAD: Error := "unexpected empty upload"

  /** The first `k` uploads a faultless run makes: every part in order, numbered from one, the
      last marked. */
  function Uploads(parts: seq<Yield>, k: nat): seq<Rpc>
    requires k <= |parts| && forall i :: 0 <= i < k ==> parts[i].Part?
  {
    seq(k, i requires 0 <= i < k => UploadPart(i + 1, parts[i].bytes, i + 1 == |parts|))
  }

  function Etags(server: Server, k: nat): seq<string>
    requires forall i :: 1 <= i <= k ==> server.upload(i).Stored?
  {
    seq(k, i requires 0 <= i < k => server.upload(i + 1).etag)
  }

  /** Each upload carries its own part and number, only that of the last part is marked, and the
      results are listed in the order of the parts. */
  lemma UploadsInOrder(parts: seq<Yield>, server: Server, k: nat, i: nat)
    requires i < k <= |parts| && forall j :: 0 <= j < k ==> parts[j].Part?
    requires forall j :: 1 <= j <= k ==> server.upload(j).Stored?
    ensures |Uploads(parts, k)| == |Etags(server, k)| == k
    ensures var u := Uploads(parts, k)[i];
      u.UploadPart? && u.number == i + 1 && Part(u.bytes) == parts[i] && (u.isLast <==> i == |parts| - 1)
    ensures Stored(Etags(server, k)[i]) == server.upload(i + 1)
  {}

  /** Nothing goes wrong before the upload would be completed. */
  predicate Faultless(parts: seq<Yield>, server: Server) {
    && server.create.None? && parts != []
    && (forall i :: 0 <= i < |parts| ==> parts[i].Part?)
    && (forall i :: 1 <= i <= |parts| ==> server.upload(i).Stored?)
  }

  /** The uploads of a run that fails after `k` of them: all that was stored before, and no
      further than a rejected part or the part before a broken one. */
  predicate StoppedAfter(parts: seq<Yield>, server: Server, k: nat) {
    && k <= |parts| && (forall i :: 0 <= i < k ==> parts[i].Part?)
    && (forall i :: 0 <= i < |parts| && parts[i].Broken? ==> k < i || k == 0)
    && (forall i :: 1 <= i < k ==> server.upload(i).Stored?)
    && (server.create.None? && parts != [] && parts[0].Part? ==>
         (k > 0 && server.upload(k).Rejected?) || (k + 1 < |parts| && parts[k + 1].Broken?))
    && (server.create.Some? || parts == [] || parts[0].Broken? ==> k == 0)
  }

  /** The error of a run that fails after `k` uploads. */
  function FailsWith(parts: seq<Yield>, server: Server, k: nat): Option<Error>
    requires StoppedAfter(parts, server, k)
  {
    if server.create.Some? then server.create
    else if parts == [] then Some(EMPTY_UPLOAD)
    else if parts[0].Broken? then Some(parts[0].error)
    else if k > 0 && server.upload(k).Rejected? then Some(server.upload(k).error)
    else Some(parts[k + 1].error)
  }

  /** The requests made are `CreateUpload`, then the first uploads of the faultless run, then
      `CompleteUpload` with exactly the results of all of them if nothing went wrong, and never
      otherwise; the error is that of the call or the part at which the run stopped. One part is
      held back until the iterator has shown what follows it, so a broken part also keeps the
      part before it from being sent. */
  method UploadEncryptedRecording(parts: seq<Yield>, server: Server) returns (err: Option<Error>, log: seq<Rpc>)
    ensures Faultless(parts, server) ==>
      && err == server.complete
      && log == [CreateUpload] + Uploads(parts, |parts|) + [CompleteUpload(Etags(server, |parts|))]
    ensures !Faultless(parts, server) ==>
      && log != [] && StoppedAfter(parts, server, |log| - 1)
      && err.Some? && err == FailsWith(parts, server, |log| - 1)
      && log == [CreateUpload] + Uploads(parts, |log| - 1)
  {
    log := [CreateUpload];
    ghost var sent := 0;
    if server.create.Some? {
      return server.create, log;
    }
    if parts == [] {
      return Some(EMPTY_UPLOAD), log;
    }
    if parts[0].Broken? {
      return Some(parts[0].error), log;
    }
    var part := parts[0].bytes;
    var etags: seq<string>, partNumber := [], 1;
    while true
      invariant 1 <= partNumber <= |parts| && sent == partNumber - 1
      invariant forall i :: 0 <= i < partNumber ==> parts[i].Part?
      invariant part == parts[partNumber - 1].bytes
      invariant forall i :: 1 <= i < partNumber ==> server.upload(i).Stored?
      invariant log == [CreateUpload] + Uploads(parts, sent)
      invariant etags == Etags(server, sent)
      decreases |parts| - partNumber
    {
      var hasNext := partNumber < |parts|;
      if hasNext && parts[partNumber].Broken? {
        return Some(parts[partNumber].error), log;
      }
      assert Uploads(parts, sent) + [UploadPart(partNumber, part, !hasNext)] == Uploads(parts, sent + 1);
      log := log + [UploadPart(partNumber, part, !hasNext)];
      sent := sent + 1;
      var reply := server.upload(partNumber);
      if reply.Rejected? {
        return Some(reply.error), log;
      }
      assert etags + [reply.etag] == Etags(server, sent);
      etags := etags + [reply.etag];
      if !hasNext {
        break;
      }
      part := parts[partNumber].bytes;
      partNumber := partNumber + 1;
    }
    log := log + [CompleteUpload(etags)];
    err := server.complete;
  }
}
