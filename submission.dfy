/** The ingestion handler handleForm (main.go:42-117): the method gate, the
    flattening of the posted form, the origin address, and the write of the
    record to its file in the responses directory. */
module Submission {
  import opened Text
  import opened Timestamp
  import opened Http

  /** A stored submission: field name to field value. */
  type Record = map<string, string>

  /** r.PostForm: each posted key with the values sent under it, in order. */
  type Form = map<string, seq<string>>

  const MethodPost := "POST"
  /** The reserved key the derived origin address is stored under. */
  const IpAddressKey := "ip_address"
  const ForwardedForSeparator := ','

  const MethodNotAllowedMessage := "Invalid request method"
  const BadFormMessage := "Unable to parse form"
  const CreateFailedPrefix := "无法打开保存文件："
  const WriteFailedPrefix := "无法写入保存文件："
  const Acknowledgement := "恭喜您完成所有测试并衷心感谢您的参与！\n如有兴趣了解实验数据分析结果，请关注微信公众号 @WIT studio。"

  datatype Request = Request(
    /** r.Method. */
    verb: string,
    /** r.PostForm once r.ParseForm succeeded; None when it failed. */
    form: Option<Form>,
    /** r.Header.Get("X-Forwarded-For"): "" when the header is absent. */
    forwardedFor: string,
    /** The host net.SplitHostPort finds in r.RemoteAddr ("" when it fails). */
    peerHost: string)

  /** A POST whose form parsed: the requests that reach the store. */
  predicate Accepted(req: Request) {
    req.verb == MethodPost && req.form.Some?
  }

  /** The value a key keeps: the first one posted, "" when none was. */
  function FirstValue(values: seq<string>): string {
    if |values| > 0 then values[0] else ""
  }

  /** The loop of main.go:53-60: every posted key, and no other, maps to its
      first value. */
  method Flatten(form: Form) returns (data: Record)
    ensures data.Keys == form.Keys
    ensures forall key :: key in form ==> data[key] == FirstValue(form[key])
  {
    data := map[];
    var pending := form.Keys;
    while pending != {}
      invariant pending <= form.Keys
      invariant data.Keys == form.Keys - pending
      invariant forall key :: key in data ==> data[key] == FirstValue(form[key])
      decreases pending
    {
      var key :| key in pending;
      var values := form[key];
      if |values| > 0 {
        data := data[key := values[0]];
      } else {
        data := data[key := ""];
      }
      pending := pending - {key};
    }
  }

  /** The submitter's address: the first comma-separated entry of
      X-Forwarded-For with its spaces trimmed, or the peer host when that
      header is empty. */
  function OriginAddress(forwardedFor: string, peerHost: string): (ip: string)
    ensures forwardedFor == "" ==> ip == peerHost
    ensures forwardedFor != "" ==> Trimmed(ip) && ForwardedForSeparator !in ip
    ensures forwardedFor != "" ==> forall c :: c in ip ==> c in forwardedFor
  {
    if forwardedFor != "" then TrimSpace(FirstSegment(forwardedFor, ForwardedForSeparator))
    else peerHost
  }

  /** Whenever the header is spaces, an address, spaces, and then nothing or
      a comma and anything, the address is what is stored. A header of only
      spaces gives "", not the peer host. */
  lemma {:induction false} OriginFromForwardedFor(p: string, address: string, q: string, rest: string, peerHost: string)
    requires AllSpace(p) && AllSpace(q) && Trimmed(address)
    requires ForwardedForSeparator !in p + address + q
    requires rest == [] || rest[0] == ForwardedForSeparator
    requires p + address + q + rest != ""
    ensures OriginAddress(p + address + q + rest, peerHost) == address
  {
    var entry := p + address + q;
    if rest == [] {
      assert entry + rest == entry;
      FirstSegmentUnique(entry, ForwardedForSeparator, []);
    } else {
      assert entry + rest == entry + [ForwardedForSeparator] + rest[1..];
      FirstSegmentUnique(entry, ForwardedForSeparator, rest[1..]);
    }
    TrimSpaceUnique(p, address, q);
  }

  /** What a normalised record is: the posted keys plus the reserved key, the
      reserved key holding the derived address whatever the client sent
      under it, every other key its first posted value. */
  ghost predicate IsNormalized(data: Record, form: Form, ip: string) {
    && data.Keys == form.Keys + {IpAddressKey}
    && data[IpAddressKey] == ip
    && forall key :: key in form && key != IpAddressKey ==> data[key] == FirstValue(form[key])
  }

  ghost function NormalizedRecord(form: Form, ip: string): Record {
    (map key | key in form :: FirstValue(form[key]))[IpAddressKey := ip]
  }

  /** The description pins the record down: exactly one map satisfies it. */
  lemma NormalizedRecordUnique(data: Record, form: Form, ip: string)
    ensures IsNormalized(data, form, ip) <==> data == NormalizedRecord(form, ip)
  {
    var n := NormalizedRecord(form, ip);
    if IsNormalized(data, form, ip) {
      assert data.Keys == n.Keys;
      forall key | key in data ensures data[key] == n[key] {
        if key != IpAddressKey { assert key in form; }
      }
    }
  }

  /** main.go:53-69: flatten the form, then write the derived address into
      the reserved key. */
  method BuildRecord(form: Form, forwardedFor: string, peerHost: string) returns (data: Record)
    ensures IsNormalized(data, form, OriginAddress(forwardedFor, peerHost))
  {
    data := Flatten(form);
    var ip := OriginAddress(forwardedFor, peerHost);
    data := data[IpAddressKey := ip];
  }

  /** What a file in the responses directory holds: a complete JSON document
      of a record, or bytes that do not parse (an empty file after
      os.Create's truncation, or a partial write). */
  datatype StoredFile = Document(record: Record) | Unparsable

  /** The responses directory, file name to contents. */
  class ResponseStore {
    var files: map<string, StoredFile>

    constructor (existing: map<string, StoredFile>)
      ensures files == existing
    {
      files := existing;
    }

    /** os.Create: makes the file, truncating one of the same name; `failure`
        is the error the file system reports, if any. */
    method Create(name: string, failure: Option<string>) returns (err: Option<string>)
      modifies this
      ensures err == failure
      ensures files == if failure.None? then old(files)[name := Unparsable] else old(files)
    {
      err := failure;
      if failure.None? {
        files := files[name := Unparsable];
      }
    }

    /** The JSON encoder writing the record into the created file: one Write
        of the encoded record and a newline. On failure the file keeps
        whatever prefix of those bytes reached it, `leftover`: bytes that do
        not parse, or, when only the final newline was lost, the whole
        document. */
    method Encode(name: string, record: Record, failure: Option<string>, leftover: StoredFile)
      returns (err: Option<string>)
      requires leftover == Unparsable || leftover == Document(record)
      modifies this
      ensures err == failure
      ensures files == old(files)[name := if failure.None? then Document(record) else leftover]
    {
      err := failure;
      if failure.None? {
        files := files[name := Document(record)];
      } else {
        files := files[name := leftover];
      }
    }

    /** main.go:73-116: create the file named `name`, encode `record` into
        it and answer; each failure answers 500 with the reported error. */
    method Save(name: string, record: Record, createFailure: Option<string>,
                writeFailure: Option<string>, leftover: StoredFile)
      returns (resp: Response)
      requires leftover == Unparsable || leftover == Document(record)
      modifies this
      ensures createFailure.Some? ==>
        resp == Error(StatusInternalServerError, CreateFailedPrefix + createFailure.value) && files == old(files)
      ensures createFailure.None? && writeFailure.Some? ==>
        resp == Error(StatusInternalServerError, WriteFailedPrefix + writeFailure.value)
        && files == old(files)[name := leftover]
      ensures createFailure.None? && writeFailure.None? ==>
        resp == Response(StatusOK, map[], Text(Acknowledgement)) && files == old(files)[name := Document(record)]
    {
      var err := Create(name, createFailure);
      if err.Some? {
        return Error(StatusInternalServerError, CreateFailedPrefix + err.value);
      }
      err := Encode(name, record, writeFailure, leftover);
      if err.Some? {
        return Error(StatusInternalServerError, WriteFailedPrefix + err.value);
      }
      resp := Response(StatusOK, map[], Text(Acknowledgement));
    }
  }

  /** handleForm. `now` is time.Now(); `createFailure` and `writeFailure` are
      the errors os.Create and the encoder report, if any, and `leftover` what
      a failed write leaves in the file. */
  method HandleForm(store: ResponseStore, req: Request, now: Clock,
                    createFailure: Option<string>, writeFailure: Option<string>,
                    leftover: StoredFile)
    returns (resp: Response)
    requires Accepted(req) ==>
      || leftover == Unparsable
      || leftover == Document(NormalizedRecord(req.form.value, OriginAddress(req.forwardedFor, req.peerHost)))
    modifies store
    ensures req.verb != MethodPost ==>
      resp == Error(StatusMethodNotAllowed, MethodNotAllowedMessage) && store.files == old(store.files)
    ensures req.verb == MethodPost && req.form.None? ==>
      resp == Error(StatusBadRequest, BadFormMessage) && store.files == old(store.files)
    ensures Accepted(req) && createFailure.Some? ==>
      && resp == Error(StatusInternalServerError, CreateFailedPrefix + createFailure.value)
      && store.files == old(store.files)
    ensures Accepted(req) && createFailure.None? && writeFailure.Some? ==>
      && resp == Error(StatusInternalServerError, WriteFailedPrefix + writeFailure.value)
      && store.files == old(store.files)[Filename(now) := leftover]
    ensures Accepted(req) && createFailure.None? && writeFailure.None? ==>
      && resp == Response(StatusOK, map[], Text(Acknowledgement))
      && store.files == old(store.files)[Filename(now) :=
           Document(NormalizedRecord(req.form.value, OriginAddress(req.forwardedFor, req.peerHost)))]
  {
    if req.verb != MethodPost {
      return Error(StatusMethodNotAllowed, MethodNotAllowedMessage);
    }
    if req.form.None? {
      return Error(StatusBadRequest, BadFormMessage);
    }
    var data := BuildRecord(req.form.value, req.forwardedFor, req.peerHost);
    NormalizedRecordUnique(data, req.form.value, OriginAddress(req.forwardedFor, req.peerHost));
    resp := store.Save(Filename(now), data, createFailure, writeFailure, leftover);
  }
}
