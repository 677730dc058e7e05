/** The upload_file tool: checks on the request, the call of Write, and the audit trail. The
    decoder and the mode parser are outside; what they answer is part of the request. */
module UploadTool {

  import opened Wrappers
  import opened UploadSpec
  import opened UploadWriter

  /** A call of the tool. `encoded` is the length of the base64 text, `decoded` and `parsed` what
      the decoder and ParseMode make of the content and of a mode that was given. */
  datatype Request = Request(
    rel: RelPath, encoded: nat, decoded: Option<Bytes>, overwrite: bool, modeGiven: bool, parsed: Option<nat>)

  datatype ToolConfig = ToolConfig(files: Config, defaultMode: nat, denyRoot: bool)

  datatype AuditResult = Success | Warn | Denied | Failed

  datatype AuditRecord = AuditRecord(result: AuditResult, rel: RelPath, size: nat)

  datatype ToolError = RootForbidden | TooLargeEncoded | BadBase64 | TooLargeDecoded | BadMode | WriteFailed(error: WriteError)

  /** base64.StdEncoding.DecodedLen: three bytes for every four characters. */
  function DecodedLen(n: nat): nat {
    n / 4 * 3
  }

  /** The input checks, in order; None when the request goes on to be written. */
  function Rejected(c: ToolConfig, q: Request, asRoot: bool): Option<ToolError> {
    if asRoot && c.denyRoot then Some(RootForbidden)
    else if DecodedLen(q.encoded) > c.files.maxFile then Some(TooLargeEncoded)
    else if q.decoded.None? then Some(BadBase64)
    else if |q.decoded.value| > c.files.maxFile then Some(TooLargeDecoded)
    else if q.modeGiven && q.parsed.None? then Some(BadMode)
    else None
  }

  function ToInput(c: ToolConfig, q: Request): Input
    requires q.decoded.Some? && (q.modeGiven ==> q.parsed.Some?)
  {
    Input(q.rel, q.decoded.value, q.overwrite, if q.modeGiven then q.parsed.value else c.defaultMode)
  }

  predicate IsDenial(e: ToolError) {
    e.WriteFailed? ==> IsDeny(e.error)
  }

  /** The warning every call as root leaves before anything else. */
  function Warning(asRoot: bool): seq<AuditRecord> {
    if asRoot then [AuditRecord(Warn, NotLocal, 0)] else []
  }

  /** The one record that says how a call ended. */
  function Ending(rel: RelPath, r: Result<Written, ToolError>): AuditRecord {
    match r
    case Ok(w) => AuditRecord(Success, rel, w.size)
    case Err(e) => AuditRecord(if IsDenial(e) then Denied else Failed, rel, 0)
  }

  class Tool {
    const config: ToolConfig
    const files: FileUpload
    const root: Root
    const absRoot: string
    var log: seq<AuditRecord>

    constructor (config: ToolConfig, files: FileUpload, root: Root, absRoot: string)
      ensures this.config == config && this.files == files && this.root == root && this.absRoot == absRoot && log == []
    {
      this.config, this.files, this.root, this.absRoot := config, files, root, absRoot;
      log := [];
    }

    method Audit(result: AuditResult, rel: RelPath, size: nat)
      modifies this`log
      ensures log == old(log) + [AuditRecord(result, rel, size)]
    {
      log := log + [AuditRecord(result, rel, size)];
    }

    /** The write itself, its outcome and its record. */
    method Upload(input: Input, s: Script) returns (r: Result<Written, ToolError>)
      requires files.Valid() && [] in root.tree
      modifies this`log, files, root, files.rootLocks.Values
      ensures files.Valid()
      ensures var (w, t) := WriteSpec(config.files, old(root.tree), input, s);
              root.tree == t && r == (if w.Ok? then Ok(w.value) else Err(WriteFailed(w.error)))
      ensures r.Ok? ==> log == old(log) + [AuditRecord(Success, input.rel, r.value.size)]
      ensures r.Err? ==>
                && r.error.WriteFailed?
                && log == old(log) + [AuditRecord(if r.error.error.Io? then Failed else Denied, input.rel, 0)]
    {
      hide WriteSpec;
      var written := files.Write(config.files, absRoot, root, input, s);
      if written.Err? {
        var result := Failed;
        match written.error {
          case Traversal => result := Denied;
          case Exists => result := Denied;
          case IsDir => result := Denied;
          case TooLarge => result := Denied;
          case QuotaExceeded => result := Denied;
          case Io(_) =>
        }
        Audit(result, input.rel, 0);
        return Err(WriteFailed(written.error));
      }
      Audit(Success, input.rel, written.value.size);
      return Ok(written.value);
    }

    /** The input checks, in order, with the record of the one that fails. */
    method Check(q: Request, asRoot: bool) returns (e: Option<ToolError>)
      modifies this`log
      ensures e == Rejected(config, q, asRoot)
      ensures asRoot && config.denyRoot ==> e == Some(RootForbidden)
      ensures !(asRoot && config.denyRoot) && q.encoded / 4 * 3 > config.files.maxFile ==> e == Some(TooLargeEncoded)
      ensures !(asRoot && config.denyRoot) && q.encoded / 4 * 3 <= config.files.maxFile ==>
                && (q.decoded.None? ==> e == Some(BadBase64))
                && (q.decoded.Some? && |q.decoded.value| > config.files.maxFile ==> e == Some(TooLargeDecoded))
                && (q.decoded.Some? && |q.decoded.value| <= config.files.maxFile ==>
                      e == if q.modeGiven && q.parsed.None? then Some(BadMode) else None)
      ensures log == old(log) + (if asRoot then [AuditRecord(Warn, NotLocal, 0)] else [])
                     + (if e.Some? then [AuditRecord(Denied, q.rel, 0)] else [])
      ensures e.Some? ==> !e.value.WriteFailed?
    {
      if asRoot {
        Audit(Warn, NotLocal, 0);
        if config.denyRoot {
          Audit(Denied, q.rel, 0);
          return Some(RootForbidden);
        }
      }
      if DecodedLen(q.encoded) > config.files.maxFile {
        Audit(Denied, q.rel, 0);
        return Some(TooLargeEncoded);
      }
      if q.decoded.None? {
        Audit(Denied, q.rel, 0);
        return Some(BadBase64);
      }
      if |q.decoded.value| > config.files.maxFile {
        Audit(Denied, q.rel, 0);
        return Some(TooLargeDecoded);
      }
      if q.modeGiven && q.parsed.None? {
        Audit(Denied, q.rel, 0);
        return Some(BadMode);
      }
      return None;
    }

    /** Every call adds exactly one record that is not a warning, and that record, the answer and
        the tree agree. */
    method Handle(q: Request, asRoot: bool, s: Script) returns (r: Result<Written, ToolError>)
      requires files.Valid() && WellFormed(root.tree)
      modifies this`log, files, root, files.rootLocks.Values
      ensures files.Valid() && WellFormed(root.tree)
      ensures log == old(log) + Warning(asRoot) + [Ending(q.rel, r)]
      ensures (r.Err? && !r.error.WriteFailed?) <==> Rejected(config, q, asRoot).Some?
      ensures Rejected(config, q, asRoot).Some? ==> r == Err(Rejected(config, q, asRoot).value)
      ensures r.Err? && IsDenial(r.error) ==> root.tree == old(root.tree)
      ensures r.Err? ==> forall p :: p in old(root.tree) ==> p in root.tree && root.tree[p] == old(root.tree)[p]
      ensures r.Ok? ==> q.rel.Local? && q.decoded.Some?
                        && SuccessEffect(old(root.tree), q.rel.comps, ToInput(config, q), r.value, root.tree)
      // the checks on the request, in order
      ensures asRoot && config.denyRoot ==> r == Err(RootForbidden)
      ensures !(asRoot && config.denyRoot) && q.encoded / 4 * 3 > config.files.maxFile ==> r == Err(TooLargeEncoded)
      ensures !(asRoot && config.denyRoot) && q.encoded / 4 * 3 <= config.files.maxFile ==>
                && (q.decoded.None? ==> r == Err(BadBase64))
                && (q.decoded.Some? && |q.decoded.value| > config.files.maxFile ==> r == Err(TooLargeDecoded))
                && (q.decoded.Some? && |q.decoded.value| <= config.files.maxFile && q.modeGiven && q.parsed.None? ==>
                      r == Err(BadMode))
      ensures r.Err? && !r.error.WriteFailed? ==> root.tree == old(root.tree)
      // the write
      ensures !(asRoot && config.denyRoot) && q.encoded / 4 * 3 <= config.files.maxFile
              && q.decoded.Some? && |q.decoded.value| <= config.files.maxFile && (q.modeGiven ==> q.parsed.Some?) ==>
                var mode := if q.modeGiven then q.parsed.value else config.defaultMode;
                var (w, t) := WriteSpec(config.files, old(root.tree), Input(q.rel, q.decoded.value, q.overwrite, mode), s);
                root.tree == t && r == (if w.Ok? then Ok(w.value) else Err(WriteFailed(w.error)))
      // the audit trail
      ensures |log| == |old(log)| + (if asRoot then 2 else 1) && old(log) <= log
      ensures asRoot ==> log[|old(log)|] == AuditRecord(Warn, NotLocal, 0)
      ensures r.Ok? ==> log[|log| - 1] == AuditRecord(Success, q.rel, r.value.size)
      ensures r.Err? ==>
                log[|log| - 1] == AuditRecord(if r.error.WriteFailed? && r.error.error.Io? then Failed else Denied, q.rel, 0)
    {
      hide WriteSpec, SuccessEffect, WellFormed, Rejected;
      assert [] in root.tree by { RootThere(root.tree); }
      var refused := Check(q, asRoot);
      if refused.Some? {
        return Err(refused.value);
      }
      var mode := config.defaultMode;
      if q.modeGiven {
        mode := q.parsed.value;
      }
      var input := Input(q.rel, q.decoded.value, q.overwrite, mode);
      WriteEffect(config.files, root.tree, input, s);
      ErrorKeeps(config.files, root.tree, input, s);
      ghost var was := root.tree;
      ghost var end := WriteSpec(config.files, was, input, s);
      r := Upload(input, s);
      assert root.tree == end.1;
      assert r == if end.0.Ok? then Ok(end.0.value) else Err(WriteFailed(end.0.error));
      assert r.Err? && IsDenial(r.error) ==> root.tree == was;
      assert r.Err? ==> forall p :: p in was ==> p in root.tree && root.tree[p] == was[p];
    }
  }

  lemma ErrorKeeps(c: Config, t: Tree, input: Input, s: Script)
    requires WellFormed(t)
    ensures var (w, t') := WriteSpec(c, t, input, s);
            && (w.Err? && IsDeny(w.error) ==> t' == t)
            && (w.Err? ==> forall p :: p in t ==> p in t' && t'[p] == t[p])
  {
    WriteEffect(c, t, input, s);
    hide WriteSpec;
  }

  lemma RootThere(t: Tree)
    requires WellFormed(t)
    ensures [] in t
  {}

  // ------------------------------------------------------------------ size limits

  /** The length of the padded base64 text of n bytes. */
  function EncodedLen(n: nat): nat {
    (n + 2) / 3 * 4
  }

  /** The early size check rounds up to whole groups of three and counts line breaks, which the
      decoder skips, as content. Text of n bytes with that many break characters passes both size
      checks exactly when the rounded length with a group for every four breaks is within the limit;
      so the limit itself is reachable only if it is a multiple of three, and only with fewer than
      four. */
  lemma SizeChecksExact(c: ToolConfig, q: Request, breaks: nat)
    requires q.decoded.Some? && q.encoded == EncodedLen(|q.decoded.value|) + breaks && (q.modeGiven ==> q.parsed.Some?)
    ensures Rejected(c, q, false).None? <==> ((|q.decoded.value| + 2) / 3 + breaks / 4) * 3 <= c.files.maxFile
    ensures |q.decoded.value| == c.files.maxFile ==>
              (Rejected(c, q, false).None? <==> c.files.maxFile % 3 == 0 && breaks < 4)
  {
    var groups := (|q.decoded.value| + 2) / 3;
    assert (groups * 4 + breaks) / 4 == groups + breaks / 4;
    assert |q.decoded.value| <= groups * 3 <= |q.decoded.value| + 2;
  }

  const RESERVE := 1024

  /** Integer division as the configuration code does it: towards zero. */
  function TruncDiv(a: int, b: nat): int
    requires b > 0
  {
    if a >= 0 then a / b else -(-a / b)
  }

  /** buildConfig's check of max_file_bytes against max_body_bytes. */
  predicate FileLimitAccepted(maxBody: int, maxFile: int) {
    0 < maxFile <= TruncDiv((maxBody - RESERVE) * 3, 4)
  }

  /** The ceiling itself: three quarters of the body less the reserve, rounded down. */
  lemma LimitAcceptedExactly(maxBody: int, maxFile: int)
    ensures FileLimitAccepted(maxBody, maxFile) <==> 0 < maxFile && 4 * maxFile <= 3 * (maxBody - 1024)
  {
    var x := (maxBody - RESERVE) * 3;
    if x >= 0 {
      assert maxFile <= x / 4 <==> 4 * maxFile <= x;
    } else {
      assert TruncDiv(x, 4) <= 0;
    }
  }

  /** An accepted limit leaves room in the request body for the base64 text of every file within it. */
  lemma AcceptedLimitFits(maxBody: int, maxFile: int, n: nat)
    requires FileLimitAccepted(maxBody, maxFile) && n <= maxFile
    ensures EncodedLen(n) <= maxBody - RESERVE + 2
  {
    var groups := (n + 2) / 3;
    assert 3 * groups <= n + 2;
    assert (maxBody - RESERVE) * 3 >= 4 * n;
  }
}
