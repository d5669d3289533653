/** The service check and the model list, both read from GET /api/tags
    (checkOllama and getModels in main.go). The HTTP exchange and the JSON
    decoding are outside the model: each function receives their outcome. */
module Catalog {

  datatype Option<T> = None | Some(value: T)

  /** The outcome of one GET: a transport error (which includes a request
      that could not be built), or a status code with the body. */
  datatype HttpReply<T> = TransportError | Reply(status: int, body: T)

  const StatusOK := 200

  /** One entry of the "models" array as getModels decodes it: only its
      "model" field is kept, and an entry without one decodes to "". */
  datatype CatalogEntry = CatalogEntry(model: string)

  /** A body of /api/tags as each of the two decoders reads it. checkOllama
      decodes "models" as a list of arbitrary JSON values and keeps only its
      length (`listed`); getModels decodes it as a list of objects with a
      string "model" field (`entries`). Each is None when its decoder fails. */
  datatype TagsBody = TagsBody(listed: Option<nat>, entries: Option<seq<CatalogEntry>>)

  type TagsReply = HttpReply<TagsBody>

  /** Neither decoder is stricter than the other. The typed one fails on
      an entry that is neither an object nor null, or whose "model" is
      neither a string nor null, as in {"models":[1]}; a null entry or
      model gives the name "". The untyped one converts every number inside every
      entry to float64 and fails on one outside its range, as in
      {"models":[{"model":"m","size":1e400}]}, whose "size" the typed one
      skips. DecodersAgree holds for bodies with no such number: on them a
      body the typed decoder accepts is accepted by the untyped one too,
      with a list of the same length. */
  predicate DecodersAgree(body: TagsBody) {
    body.entries.Some? ==> body.listed == Some(|body.entries.value|)
  }

  /** checkOllama: the host runs the service when /api/tags answers 200 with
      a body whose "models" list decodes and is non-empty. */
  function CheckOllama(reply: TagsReply): (ok: bool)
    ensures ok <==> reply.Reply? && reply.status == StatusOK && reply.body.listed.Some? && reply.body.listed.value > 0
  {
    match reply
    case TransportError => false
    case Reply(status, body) =>
      if status != StatusOK then false
      else match body.listed
        case None => false
        case Some(count) => count > 0
  }

  /** The "model" field of every entry, in catalog order, duplicates kept. */
  function Names(entries: seq<CatalogEntry>): (names: seq<string>)
    ensures |names| == |entries|
    ensures forall k :: 0 <= k < |entries| ==> names[k] == entries[k].model
  {
    if entries == [] then [] else Names(entries[..|entries| - 1]) + [entries[|entries| - 1].model]
  }

  predicate Listed(reply: TagsReply) {
    reply.Reply? && reply.status == StatusOK && reply.body.entries.Some?
  }

  /** What getModels returns. Go's nil slice, returned on every failure, and
      the empty list of an empty catalog are the same value here. */
  function ModelList(reply: TagsReply): (models: seq<string>)
    ensures !Listed(reply) ==> models == []
    ensures Listed(reply) ==>
      |models| == |reply.body.entries.value| &&
      forall k :: 0 <= k < |models| ==> models[k] == reply.body.entries.value[k].model
  {
    if Listed(reply) then Names(reply.body.entries.value) else []
  }

  /** getModels (main.go:400-425): the loop that appends each entry's name. */
  method GetModels(reply: TagsReply) returns (models: seq<string>)
    ensures models == ModelList(reply)
    ensures Listed(reply) ==>
      |models| == |reply.body.entries.value| &&
      forall k :: 0 <= k < |models| ==> models[k] == reply.body.entries.value[k].model
  {
    if reply.TransportError? || reply.status != StatusOK {
      return [];
    }
    if reply.body.entries.None? {
      return [];
    }
    var data := reply.body.entries.value;
    models := [];
    var n := 0;
    while n < |data|
      invariant 0 <= n <= |data|
      invariant models == Names(data[..n])
    {
      models := models + [data[n].model];
      assert data[..n + 1][..n] == data[..n];
      n := n + 1;
    }
    assert data[..n] == data;
  }

  /** A reply from which getModels lists a model also passes the service
      check, provided no entry holds a number outside float64's range. */
  lemma ModelsImplyServiceCheck(reply: TagsReply)
    requires reply.Reply? ==> DecodersAgree(reply.body)
    ensures ModelList(reply) != [] ==> CheckOllama(reply)
  {
  }

  /** The converse fails: a catalog whose entries are not objects with a
      string "model" (such as {"models":[1]}) passes checkOllama while
      getModels returns nothing. */
  lemma ServiceCheckWithoutModels()
    ensures var reply := Reply(StatusOK, TagsBody(Some(1), None));
      DecodersAgree(reply.body) && CheckOllama(reply) && ModelList(reply) == []
  {
  }

  /** Without that proviso the implication fails too: for
      {"models":[{"model":"m","size":1e400}]} getModels lists "m" while
      checkOllama's decoding fails. */
  lemma ModelsWithoutServiceCheck()
    ensures var reply := Reply(StatusOK, TagsBody(None, Some([CatalogEntry("m")])));
      !DecodersAgree(reply.body) && ModelList(reply) == ["m"] && !CheckOllama(reply)
  {
    var reply := Reply(StatusOK, TagsBody(None, Some([CatalogEntry("m")])));
    assert ModelList(reply)[0] == "m";
  }

  /** Failed replies yield no models, whatever went wrong; the service check
      fails on a transport error or a status other than 200, but not
      necessarily when only getModels' decoding fails. */
  lemma FailedReplyHasNoModels(reply: TagsReply)
    requires reply.TransportError? || reply.status != StatusOK || reply.body.entries.None?
    ensures ModelList(reply) == []
    ensures reply.TransportError? || reply.status != StatusOK ==> !CheckOllama(reply)
  {
  }
}
