/** Blob references over a content-addressed storage service: a reference holds the
    bytes of a file not yet uploaded, or the hash under which the service stores them.
    What the service, the configuration loader and the network answer is not visible
    here; a Runtime carries those answers as arbitrary functions of the call number
    and its arguments, so every property below holds for every such environment. */
module BlobStorage {
  import opened Wrappers
  import Text
  import Uri

  /** What loadConfig yields. */
  datatype StorageConfig = StorageConfig(
    bucketName: string,
    storageGatewayUrl: string,
    backendCanisterId: string,
    projectId: string,
    backendHost: Option<string>)

  /** A storage client; it never changes once built from its configuration. */
  datatype StorageClient = StorageClient(config: StorageConfig)

  /** An upload progress callback, known only by its identity. */
  datatype ProgressCallback = ProgressCallback(id: nat)

  /** The arguments of one StorageClient.putFile call. */
  datatype PutFileCall = PutFileCall(bytes: seq<byte>, onProgress: Option<ProgressCallback>)

  /** What fetch resolves to; NetworkError stands for a rejected fetch. */
  datatype FetchResponse = NetworkError | Response(ok: bool, statusText: string, body: seq<byte>)

  datatype BlobError =
    | MalformedURI                  // decodeURIComponent threw a URIError
    | ConfigUnavailable             // loadConfig rejected
    | UploadFailed(reason: string)  // putFile rejected
    | FetchRejected                 // fetch rejected
    | FetchFailed(statusText: string) // "Failed to fetch blob: <statusText>"
    | NoBytesOrHash                 // "No bytes or hash available"
    | NotUploaded                   // "Cannot get URL: blob not uploaded yet"
    | NoBytesToUpload               // "No bytes to upload"

  /** Development hosts get their root key fetched (best effort) when the client is built. */
  predicate IsLocalHost(config: StorageConfig)
  {
    config.backendHost.Some? && Text.Contains(config.backendHost.value, "localhost")
  }

  /** The outcome getBytes derives from a fetch response. */
  function BytesOfResponse(response: FetchResponse): (r: Result<seq<byte>, BlobError>)
    ensures r.Ok? <==> response.Response? && response.ok
    ensures r.Ok? ==> r.value == response.body
    ensures response.Response? && !response.ok ==> r == Err(FetchFailed(response.statusText))
  {
    match response
    case NetworkError => Err(FetchRejected)
    case Response(ok, statusText, body) => if ok then Ok(body) else Err(FetchFailed(statusText))
  }

  // ---- The blob_hash query parameter (fromURL) ----

  const HashKey: string := "blob_hash="

  /** The pattern /blob_hash=([^&]+)/ can match at position i: the key is there and
      the character after it exists and is not '&'. */
  predicate MatchesAt(url: string, i: nat)
  {
    Text.OccursAt(url, HashKey, i) && i + |HashKey| < |url| && url[i + |HashKey|] != '&'
  }

  /** The leftmost position at or after `from` where the pattern matches. */
  function FindMatch(url: string, from: nat): (r: Option<nat>)
    requires from <= |url|
    ensures r.Some? ==> from <= r.value < |url| && MatchesAt(url, r.value)
    ensures r.Some? ==> forall j :: from <= j < r.value ==> !MatchesAt(url, j)
    ensures r.None? ==> forall j :: from <= j ==> !MatchesAt(url, j)
    decreases |url| - from
  {
    if from == |url| then None
    else if MatchesAt(url, from) then Some(from)
    else FindMatch(url, from + 1)
  }

  /** The greedy run [^&]+ : the longest prefix of s without '&'. */
  function ValueRun(s: string): (r: string)
    ensures |r| <= |s| && r == s[..|r|]
    ensures forall i :: 0 <= i < |r| ==> r[i] != '&'
    ensures |r| == |s| || s[|r|] == '&'
  {
    if s == [] || s[0] == '&' then [] else [s[0]] + ValueRun(s[1..])
  }

  /** The captured group of /blob_hash=([^&]+)/ on url, if it matches. */
  function HashParam(url: string): (r: Option<string>)
    ensures r.Some? ==> r.value != []
  {
    match FindMatch(url, 0)
    case None => None
    case Some(i) => Some(ValueRun(url[i + |HashKey|..]))
  }

  /** The hash fromURL stores: the percent-decoded parameter, none without a match,
      and the URIError decodeURIComponent throws on a malformed escape. */
  function HashOfURL(url: string): Result<Option<string>, BlobError>
  {
    match HashParam(url)
    case None => Ok(None)
    case Some(p) =>
      match Uri.Decode(p)
      case None => Err(MalformedURI)
      case Some(h) => Ok(Some(h))
  }

  /** A URL without a match leaves the reference with no hash; a URL with one never
      yields an empty, hence falsy, hash. */
  lemma HashOfURLIsTruthy(url: string)
    ensures HashParam(url).None? ==> HashOfURL(url) == Ok(None)
    ensures HashOfURL(url).Ok? && HashOfURL(url).value.Some? ==> HashOfURL(url).value.value != []
  {
    if HashParam(url).Some? {
      DecodeNonEmpty(HashParam(url).value);
    }
  }

  lemma DecodeNonEmpty(s: string)
    requires s != []
    ensures Uri.Decode(s).Some? ==> Uri.Decode(s).value != []
  {
  }

  /** A URL that carries the percent-encoding of a non-empty hash h as its first
      blob_hash parameter, ended by '&' or by the end of the URL, gives back h. */
  lemma HashOfIssuedURL(prefix: string, h: string, suffix: string)
    requires h != []
    requires forall i :: 0 <= i < |prefix| ==> !Text.OccursAt(prefix + HashKey, HashKey, i)
    requires suffix == [] || suffix[0] == '&'
    ensures HashOfURL(prefix + HashKey + Uri.Encode(h) + suffix) == Ok(Some(h))
  {
    Uri.EncodeHasNoAmpersand(h);
    ParamOfIssuedURL(prefix, Uri.Encode(h), suffix);
    Uri.DecodeEncode(h);
  }

  /** The parameter captured from such a URL is exactly the value between the key
      and the '&' or the end. */
  lemma ParamOfIssuedURL(prefix: string, e: string, suffix: string)
    requires e != [] && forall i :: 0 <= i < |e| ==> e[i] != '&'
    requires forall i :: 0 <= i < |prefix| ==> !Text.OccursAt(prefix + HashKey, HashKey, i)
    requires suffix == [] || suffix[0] == '&'
    ensures HashParam(prefix + HashKey + e + suffix) == Some(e)
  {
    var tail := e + suffix;
    assert prefix + HashKey + e + suffix == prefix + HashKey + tail;
    MatchAfterHead(prefix, tail);
    assert (prefix + HashKey + tail)[|prefix| + |HashKey|..] == tail;
    RunUpToAmpersand(e, suffix);
  }

  /** With no earlier match, the pattern first matches at the key ending `head`
      when the text after it starts with a character other than '&'. */
  lemma MatchAfterHead(prefix: string, tail: string)
    requires forall i :: 0 <= i < |prefix| ==> !Text.OccursAt(prefix + HashKey, HashKey, i)
    requires tail != [] && tail[0] != '&'
    ensures FindMatch(prefix + HashKey + tail, 0) == Some(|prefix|)
  {
    var url := prefix + HashKey + tail;
    forall j | 0 <= j < |prefix| ensures !MatchesAt(url, j) {
      NoMatchInPrefix(prefix, tail, j);
    }
    MatchAtKey(prefix, tail);
    FirstMatch(url, |prefix|);
  }

  lemma NoMatchInPrefix(prefix: string, tail: string, j: nat)
    requires j < |prefix|
    requires !Text.OccursAt(prefix + HashKey, HashKey, j)
    ensures !MatchesAt(prefix + HashKey + tail, j)
  {
    var head := prefix + HashKey;
    assert (head + tail)[j..j + |HashKey|] == head[j..j + |HashKey|];
  }

  lemma MatchAtKey(prefix: string, tail: string)
    requires tail != [] && tail[0] != '&'
    ensures MatchesAt(prefix + HashKey + tail, |prefix|)
  {
    var url := prefix + HashKey + tail;
    var k := |prefix|;
    assert url[k..k + |HashKey|] == HashKey;
    assert url[k + |HashKey|] == tail[0];
  }

  lemma FirstMatch(url: string, k: nat)
    requires k <= |url| && MatchesAt(url, k)
    requires forall j :: 0 <= j < k ==> !MatchesAt(url, j)
    ensures FindMatch(url, 0) == Some(k)
  {
  }

  lemma RunUpToAmpersand(e: string, suffix: string)
    requires forall i :: 0 <= i < |e| ==> e[i] != '&'
    requires suffix == [] || suffix[0] == '&'
    ensures ValueRun(e + suffix) == e
  {
    assert (e + suffix)[..|e|] == e;
  }

  // ---- The process: memoised client and the services behind it ----

  class Runtime {
    /** Answer of the n-th loadConfig call; None is a rejection. */
    const loadConfig: nat -> Option<StorageConfig>
    /** Answer of the n-th putFile call: the hash, or the rejection reason. */
    const putFile: (nat, StorageConfig, seq<byte>) -> Result<string, string>
    /** StorageClient.getDirectURL: the same hash always gives the same URL. */
    const directURL: (StorageConfig, string) -> string
    /** Answer of the n-th fetch. */
    const fetch: (nat, string) -> FetchResponse

    /** The module-level `storageClient` (null until the first successful load). */
    var storageClient: Option<StorageClient>
    var configLoads: nat
    var putFileCalls: seq<PutFileCall>
    var fetchCalls: seq<string>
    ghost var constructions: nat
    ghost var rootKeyFetches: nat

    /** The client is built at most once, and the root key is fetched at most once,
        only when it was built for a development host. */
    ghost predicate Valid()
      reads this
    {
      && constructions == (if storageClient.Some? then 1 else 0)
      && rootKeyFetches == (if storageClient.Some? && IsLocalHost(storageClient.value.config) then 1 else 0)
    }

    constructor (
      loadConfig: nat -> Option<StorageConfig>,
      putFile: (nat, StorageConfig, seq<byte>) -> Result<string, string>,
      directURL: (StorageConfig, string) -> string,
      fetch: (nat, string) -> FetchResponse)
      ensures Valid()
      ensures this.loadConfig == loadConfig && this.putFile == putFile
      ensures this.directURL == directURL && this.fetch == fetch
      ensures storageClient == None && configLoads == 0 && putFileCalls == [] && fetchCalls == []
    {
      this.loadConfig := loadConfig;
      this.putFile := putFile;
      this.directURL := directURL;
      this.fetch := fetch;
      storageClient := None;
      configLoads := 0;
      putFileCalls := [];
      fetchCalls := [];
      constructions := 0;
      rootKeyFetches := 0;
    }

    /** The client cached once getStorageClient has run from this state: the cached
        one, or else the client of the configuration the next load yields, if any. */
    function ClientAfterLoad(): (r: Option<StorageClient>)
      reads this
      ensures storageClient.Some? ==> r == storageClient
      ensures storageClient.None? ==> (r.Some? <==> loadConfig(configLoads).Some?)
      ensures storageClient.None? && r.Some? ==> r.value.config == loadConfig(configLoads).value
    {
      if storageClient.Some? then storageClient
      else match loadConfig(configLoads)
           case None => None
           case Some(c) => Some(StorageClient(c))
    }

    /** The number of configuration loads once getStorageClient has run from this
        state: one more exactly when no client was cached. */
    function LoadsAfterLoad(): (r: nat)
      reads this
      ensures r == configLoads || r == configLoads + 1
      ensures r == configLoads + 1 <==> storageClient.None?
    {
      if storageClient.Some? then configLoads else configLoads + 1
    }

    /** getStorageClient: the cached client when there is one; otherwise load the
        configuration and build (and cache) the client, or fail and cache nothing. */
    method GetStorageClient() returns (r: Result<StorageClient, BlobError>)
      requires Valid()
      modifies this
      ensures Valid()
      ensures old(storageClient).Some? ==> unchanged(this) && r == Ok(old(storageClient).value)
      ensures storageClient == old(ClientAfterLoad()) && configLoads == old(LoadsAfterLoad())
      ensures r == (if storageClient.Some? then Ok(storageClient.value) else Err(ConfigUnavailable))
      ensures putFileCalls == old(putFileCalls) && fetchCalls == old(fetchCalls)
    {
      if storageClient.None? {
        var loaded := loadConfig(configLoads);
        configLoads := configLoads + 1;
        if loaded.None? {
          return Err(ConfigUnavailable);
        }
        var config := loaded.value;
        if IsLocalHost(config) {
          rootKeyFetches := rootKeyFetches + 1;
        }
        storageClient := Some(StorageClient(config));
        constructions := constructions + 1;
      }
      r := Ok(storageClient.value);
    }

    /** StorageClient.putFile: records the call and gives the service's answer. */
    method PutFile(client: StorageClient, bytes: seq<byte>, onProgress: Option<ProgressCallback>)
      returns (r: Result<string, BlobError>)
      modifies this`putFileCalls
      ensures putFileCalls == old(putFileCalls) + [PutFileCall(bytes, onProgress)]
      ensures r == match putFile(|old(putFileCalls)|, client.config, bytes)
                   case Ok(h) => Ok(h)
                   case Err(e) => Err(UploadFailed(e))
    {
      var answer := putFile(|putFileCalls|, client.config, bytes);
      putFileCalls := putFileCalls + [PutFileCall(bytes, onProgress)];
      r := match answer
           case Ok(h) => Ok(h)
           case Err(e) => Err(UploadFailed(e));
    }

    /** The global fetch: records the request and gives the network's answer. */
    method Fetch(url: string) returns (response: FetchResponse)
      modifies this`fetchCalls
      ensures fetchCalls == old(fetchCalls) + [url]
      ensures response == fetch(|old(fetchCalls)|, url)
    {
      response := fetch(|fetchCalls|, url);
      fetchCalls := fetchCalls + [url];
    }
  }

  /** The outcome uploadImage derives from putFile's answer: the direct URL of the
      hash, unless the upload failed or gave an empty (falsy) hash, which
      getDirectURL then refuses. */
  function ImageURLOf(answer: Result<string, string>, config: StorageConfig,
                      directURL: (StorageConfig, string) -> string): (r: Result<string, BlobError>)
    ensures r.Ok? <==> answer.Ok? && answer.value != []
    ensures r.Ok? ==> r.value == directURL(config, answer.value)
  {
    match answer
    case Err(e) => Err(UploadFailed(e))
    case Ok(h) => if h == [] then Err(NotUploaded) else Ok(directURL(config, h))
  }

  // ---- Blob references ----

  class ExternalBlob {
    var hash: Option<string>
    var bytes: Option<seq<byte>>
    var progressCallback: Option<ProgressCallback>

    /** JavaScript truthiness of the hash: null and "" both count as absent.
        (The bytes, a Uint8Array, are truthy whenever present, even when empty.) */
    predicate HasHash()
      reads this
    {
      hash.Some? && hash.value != []
    }

    /** fromBytes: exactly the given bytes, no hash, no callback. */
    constructor FromBytes(bytes: seq<byte>)
      ensures this.bytes == Some(bytes) && hash == None && progressCallback == None
    {
      this.bytes := Some(bytes);
      hash := None;
      progressCallback := None;
    }

    constructor Empty()
      ensures bytes == None && hash == None && progressCallback == None
    {
      bytes := None;
      hash := None;
      progressCallback := None;
    }

    /** fromURL: no bytes, and the hash of the blob_hash parameter; throws when the
        parameter is not valid percent-encoding. */
    static method FromURL(url: string) returns (r: Result<ExternalBlob, BlobError>)
      ensures HashOfURL(url).Err? ==> r == Err(HashOfURL(url).error)
      ensures HashOfURL(url).Ok? ==>
        && r.Ok? && fresh(r.value)
        && r.value.hash == HashOfURL(url).value
        && r.value.bytes == None && r.value.progressCallback == None
    {
      var h := HashOfURL(url);
      if h.Err? {
        return Err(h.error);
      }
      var blob := new ExternalBlob.Empty();
      blob.hash := h.value;
      r := Ok(blob);
    }

    /** withUploadProgress: replaces only the callback and returns the same reference. */
    method WithUploadProgress(onProgress: ProgressCallback) returns (self: ExternalBlob)
      modifies this`progressCallback
      ensures self == this && progressCallback == Some(onProgress)
    {
      progressCallback := Some(onProgress);
      self := this;
    }

    /** getDirectURL: refused without a (truthy) hash; otherwise the client's URL for it. */
    method GetDirectURL(rt: Runtime) returns (r: Result<string, BlobError>)
      requires rt.Valid()
      modifies rt
      ensures rt.Valid()
      ensures !HasHash() ==> r == Err(NotUploaded) && unchanged(rt)
      ensures HasHash() ==>
        r == (if rt.storageClient.Some? then Ok(rt.directURL(rt.storageClient.value.config, hash.value))
              else Err(ConfigUnavailable))
      ensures HasHash() ==> rt.storageClient == old(rt.ClientAfterLoad()) && rt.configLoads == old(rt.LoadsAfterLoad())
      ensures old(rt.storageClient).Some? ==> unchanged(rt)
      ensures rt.putFileCalls == old(rt.putFileCalls) && rt.fetchCalls == old(rt.fetchCalls)
    {
      if !HasHash() {
        return Err(NotUploaded);
      }
      var client := rt.GetStorageClient();
      if client.Err? {
        return Err(client.error);
      }
      r := Ok(rt.directURL(client.value.config, hash.value));
    }

    /** getBytes: the held bytes without any request; otherwise fetch the hash's
        direct URL and fail unless the response is ok; with neither, fail. */
    method GetBytes(rt: Runtime) returns (r: Result<seq<byte>, BlobError>)
      requires rt.Valid()
      modifies rt
      ensures rt.Valid()
      ensures bytes.Some? ==> r == Ok(bytes.value) && unchanged(rt)
      ensures bytes.None? && !HasHash() ==> r == Err(NoBytesOrHash) && unchanged(rt)
      ensures bytes.None? && HasHash() ==>
        if rt.storageClient.None? then
          r == Err(ConfigUnavailable) && rt.fetchCalls == old(rt.fetchCalls)
        else
          var url := rt.directURL(rt.storageClient.value.config, hash.value);
          && rt.fetchCalls == old(rt.fetchCalls) + [url]
          && r == BytesOfResponse(rt.fetch(|old(rt.fetchCalls)|, url))
      ensures bytes.None? && HasHash() ==>
        rt.storageClient == old(rt.ClientAfterLoad()) && rt.configLoads == old(rt.LoadsAfterLoad())
      ensures rt.putFileCalls == old(rt.putFileCalls)
      ensures old(rt.storageClient).Some? ==> rt.storageClient == old(rt.storageClient)
    {
      if bytes.Some? {
        return Ok(bytes.value);
      }
      if HasHash() {
        var url := GetDirectURL(rt);
        if url.Err? {
          return Err(url.error);
        }
        var response := rt.Fetch(url.value);
        return BytesOfResponse(response);
      }
      r := Err(NoBytesOrHash);
    }

    /** upload: a reference with a (truthy) hash answers it at once and calls no
        service; without bytes it fails; otherwise it puts the bytes, with the
        attached callback, and keeps the hash the service returns. */
    method Upload(rt: Runtime) returns (r: Result<string, BlobError>)
      requires rt.Valid()
      modifies this`hash, rt
      ensures rt.Valid()
      ensures old(HasHash()) ==> r == Ok(old(hash).value) && hash == old(hash) && unchanged(rt)
      ensures !old(HasHash()) && bytes.None? ==> r == Err(NoBytesToUpload) && hash == old(hash) && unchanged(rt)
      ensures !old(HasHash()) && bytes.Some? ==>
        if rt.storageClient.None? then
          r == Err(ConfigUnavailable) && hash == old(hash) && rt.putFileCalls == old(rt.putFileCalls)
        else
          && rt.putFileCalls == old(rt.putFileCalls) + [PutFileCall(bytes.value, progressCallback)]
          && match rt.putFile(|old(rt.putFileCalls)|, rt.storageClient.value.config, bytes.value)
             case Ok(h) => r == Ok(h) && hash == Some(h)
             case Err(e) => r == Err(UploadFailed(e)) && hash == old(hash)
      ensures !old(HasHash()) && bytes.Some? ==>
        rt.storageClient == old(rt.ClientAfterLoad()) && rt.configLoads == old(rt.LoadsAfterLoad())
      ensures rt.fetchCalls == old(rt.fetchCalls)
      ensures old(rt.storageClient).Some? ==> rt.storageClient == old(rt.storageClient)
    {
      if HasHash() {
        return Ok(hash.value);
      }
      if bytes.None? {
        return Err(NoBytesToUpload);
      }
      var client := rt.GetStorageClient();
      if client.Err? {
        return Err(client.error);
      }
      var result := rt.PutFile(client.value, bytes.value, progressCallback);
      if result.Err? {
        return Err(result.error);
      }
      hash := Some(result.value);
      r := Ok(result.value);
    }
  }

  /** Two uploads of one reference: once the first has produced a non-empty hash the
      second returns that same hash, and putFile has been called at most once. */
  method UploadTwice(blob: ExternalBlob, rt: Runtime) returns (first: Result<string, BlobError>, second: Result<string, BlobError>)
    requires rt.Valid()
    modifies blob`hash, rt
    ensures rt.Valid()
    ensures first.Ok? && first.value != [] ==> second == first
    ensures first.Ok? && first.value != [] ==> |rt.putFileCalls| <= |old(rt.putFileCalls)| + 1
  {
    first := blob.Upload(rt);
    second := blob.Upload(rt);
  }

  /** uploadImage: wrap the file's bytes, attach the callback if one is given,
      upload, and answer the direct URL of the hash. */
  method UploadImage(file: seq<byte>, onProgress: Option<ProgressCallback>, rt: Runtime)
    returns (r: Result<string, BlobError>)
    requires rt.Valid()
    modifies rt
    ensures rt.Valid()
    ensures rt.storageClient.None? ==> r == Err(ConfigUnavailable) && rt.putFileCalls == old(rt.putFileCalls)
    ensures rt.storageClient.Some? ==>
      && rt.putFileCalls == old(rt.putFileCalls) + [PutFileCall(file, onProgress)]
      && var config := rt.storageClient.value.config;
         r == ImageURLOf(rt.putFile(|old(rt.putFileCalls)|, config, file), config, rt.directURL)
    ensures rt.storageClient == old(rt.ClientAfterLoad()) && rt.configLoads == old(rt.LoadsAfterLoad())
    ensures rt.fetchCalls == old(rt.fetchCalls)
    ensures old(rt.storageClient).Some? ==> rt.storageClient == old(rt.storageClient)
  {
    var blob := new ExternalBlob.FromBytes(file);
    if onProgress.Some? {
      var _ := blob.WithUploadProgress(onProgress.value);
    }
    var uploaded := blob.Upload(rt);
    if uploaded.Err? {
      return Err(uploaded.error);
    }
    r := blob.GetDirectURL(rt);
  }

  // ---- getStorageClient when calls overlap ----

  /** One step of getStorageClient calls that overlap (Promise.all over several
      uploads): a call starting, which reads the cache, or a call that awaited
      loadConfig resuming with its answer (None: the load rejected). */
  datatype MemoEvent = Start | Resume(config: Option<StorageConfig>)

  /** The memo between awaits: the cached client, the clients built so far, and the
      loads of the configuration still awaited. */
  datatype Memo = Memo(client: Option<StorageClient>, built: nat, pending: nat)

  const NoClient := Memo(None, 0, 0)

  /** As written: every call that finds no client awaits a load of its own, and
      each load that resolves builds a client and overwrites the cache. */
  function StepAsWritten(m: Memo, e: MemoEvent): (r: Memo)
    ensures r.built <= m.built + 1
    ensures m.client.Some? ==> r.client.Some?
  {
    match e
    case Start => if m.client.None? then m.(pending := m.pending + 1) else m
    case Resume(config) =>
      if m.pending == 0 then m
      else if config.None? then m.(pending := m.pending - 1)
      else Memo(Some(StorageClient(config.value)), m.built + 1, m.pending - 1)
  }

  function RunAsWritten(m: Memo, events: seq<MemoEvent>): Memo
  {
    if events == [] then m else StepAsWritten(RunAsWritten(m, events[..|events| - 1]), events[|events| - 1])
  }

  /** Two uploads started together before any client exists both load the
      configuration and both build a client. */
  lemma OverlappingCallsBuildTwice(c: StorageConfig)
    ensures RunAsWritten(NoClient, [Start, Start, Resume(Some(c)), Resume(Some(c))]).built == 2
  {
    var events := [Start, Start, Resume(Some(c)), Resume(Some(c))];
    assert events[..3][..2][..1][..0] == [];
    assert RunAsWritten(NoClient, events[..3][..2][..1]) == Memo(None, 0, 1);
    assert RunAsWritten(NoClient, events[..3][..2]) == Memo(None, 0, 2);
    assert RunAsWritten(NoClient, events[..3]) == Memo(Some(StorageClient(c)), 1, 1);
  }

  /** Corrected: the first call to find no client starts the only load (the
      pending promise is cached), later calls wait for it, and a rejected load
      clears it so that a later call can retry. */
  function StepCorrected(m: Memo, e: MemoEvent): (r: Memo)
    ensures m.client.Some? && m.pending == 0 ==> r == m
  {
    match e
    case Start => if m.client.None? && m.pending == 0 then m.(pending := 1) else m
    case Resume(config) =>
      if m.pending == 0 then m
      else if config.None? then m.(pending := 0)
      else Memo(Some(StorageClient(config.value)), m.built + 1, 0)
  }

  function RunCorrected(m: Memo, events: seq<MemoEvent>): Memo
  {
    if events == [] then m else StepCorrected(RunCorrected(m, events[..|events| - 1]), events[|events| - 1])
  }

  /** A client is built exactly when one is cached, and a load is pending only
      while none is. */
  predicate MemoSound(m: Memo)
  {
    && m.built == (if m.client.Some? then 1 else 0)
    && m.pending <= 1
    && (m.pending == 1 ==> m.client.None?)
  }

  lemma StepCorrectedSound(m: Memo, e: MemoEvent)
    requires MemoSound(m)
    ensures MemoSound(StepCorrected(m, e))
  {
  }

  /** However the calls interleave, the corrected memo builds at most one client,
      and once built the client never changes. */
  lemma {:induction false} CorrectedBuildsOnce(events: seq<MemoEvent>)
    ensures MemoSound(RunCorrected(NoClient, events))
    ensures RunCorrected(NoClient, events).built <= 1
  {
    if events != [] {
      CorrectedBuildsOnce(events[..|events| - 1]);
      StepCorrectedSound(RunCorrected(NoClient, events[..|events| - 1]), events[|events| - 1]);
    }
  }

  /** The same interleaving that builds two clients as written builds one when
      corrected. */
  lemma CorrectedOverlapBuildsOnce(c: StorageConfig)
    ensures RunCorrected(NoClient, [Start, Start, Resume(Some(c)), Resume(Some(c))]).built == 1
  {
    var events := [Start, Start, Resume(Some(c)), Resume(Some(c))];
    assert events[..3][..2][..1][..0] == [];
    assert RunCorrected(NoClient, events[..3][..2][..1]) == Memo(None, 0, 1);
    assert RunCorrected(NoClient, events[..3][..2]) == Memo(None, 0, 1);
    assert RunCorrected(NoClient, events[..3]) == Memo(Some(StorageClient(c)), 1, 0);
  }
}
