/**
 * The client-side StorageManager: an in-memory cache of the two collections
 * (accounts to pay and income entries) in front of a JSON API.
 *
 * Each call of the API is an input of the method that makes it: the Reply it
 * answered (Ok with the decoded JSON, or Err for any rejection). Each reading
 * of the clock is an int parameter. Every request sent is appended to the
 * ghost log `requests`, so contracts can say which requests an operation
 * makes and with what body.
 */
module Storage {
  import opened Values
  import opened DateUtils
  import opened RecordLists
  import opened Statistics

  /** The time-to-live of the cache, 2 minutes in milliseconds. */
  const CacheDuration: int := 2 * 60 * 1000

  datatype Collection = Contas | Entradas

  function Other(c: Collection): Collection {
    if c == Contas then Entradas else Contas
  }

  /** A decoded JSON value of any depth, as the other properties of the dataset hold. */
  datatype Json = Scalar(v: Value) | JsonObject(fields: map<string, Json>) | JsonArray(items: seq<Json>)

  /** The object the `/dados` endpoint exchanges: both collections, each possibly absent,
      and the remaining properties (such as the `config` object and `ultimaAtualizacao`). */
  datatype Dataset = Dataset(contas: Option<seq<Record>>, entradas: Option<seq<Record>>, rest: map<string, Json>)

  /** `x || []` on a property holding a list or nothing. */
  function OrEmpty(x: Option<seq<Record>>): seq<Record> {
    if x.Some? then x.value else []
  }

  /** A request sent to the API. */
  datatype Request =
    | Fetch(c: Collection)                     // GET /contas or /entradas
    | Store(c: Collection, body: seq<Record>)  // POST /contas or /entradas
    | FetchDados                               // GET /dados
    | StoreDados(dados: Dataset)               // POST /dados
    | Health                                   // GET /health

  /** A JavaScript array of records, shared by every reference to it. */
  class RecordArray {
    var elems: seq<Record>

    constructor (s: seq<Record>)
      ensures elems == s
    {
      elems := s;
    }

    /** `a.push(r)` */
    method Push(r: Record)
      modifies this
      ensures elems == old(elems) + [r]
    {
      elems := elems + [r];
    }

    /** `a[i] = r` */
    method Set(i: int, r: Record)
      requires 0 <= i < |elems|
      modifies this
      ensures elems == old(elems)[i := r]
    {
      elems := elems[i := r];
    }
  }

  /** A record object handed in by the caller, whose properties the manager assigns. */
  class RecordObject {
    var fields: Record

    constructor (r: Record)
      ensures fields == r
    {
      fields := r;
    }
  }

  class StorageManager {
    /** memoryCache.contas, memoryCache.entradas (null when absent) and memoryCache.timestamp. */
    var contas: RecordArray?
    var entradas: RecordArray?
    var timestamp: Option<int>
    /** Every request sent to the API, oldest first. */
    ghost var requests: seq<Request>

    constructor ()
      ensures contas == null && entradas == null && timestamp == None && requests == []
      ensures forall now: int :: !IsCacheValid(now)
    {
      contas := null;
      entradas := null;
      timestamp := None;
      requests := [];
    }

    function Cached(c: Collection): RecordArray?
      reads this
    {
      if c == Contas then contas else entradas
    }

    /** The cache holds a truthy timestamp (present and non-zero) taken less than
        CacheDuration before now. */
    predicate IsCacheValid(now: int)
      reads this
    {
      timestamp.Some? && timestamp.value != 0 && now - timestamp.value < CacheDuration
    }

    /** Whether a load of c at instant now answers with the cached array: the cache is valid
        and holds c, or the request fails and an (even expired) cached array exists. */
    predicate LoadsFromCache(c: Collection, now: int, reply: Reply<seq<Record>>)
      reads this
    {
      Cached(c) != null && (IsCacheValid(now) || reply.Err?)
    }

    /** The contents of the list that a load of c answers. */
    function LoadResult(c: Collection, now: int, reply: Reply<seq<Record>>): seq<Record>
      reads this, contas, entradas
    {
      if LoadsFromCache(c, now, reply) then Cached(c).elems
      else if reply.Ok? then reply.value
      else []
    }

    /** The requests a load of c sends: none on a cache hit, one GET otherwise. */
    function LoadRequests(c: Collection, now: int): seq<Request>
      reads this
    {
      if IsCacheValid(now) && Cached(c) != null then [] else [Fetch(c)]
    }

    method SetCached(c: Collection, a: RecordArray?)
      modifies this
      ensures Cached(c) == a && Cached(Other(c)) == old(Cached(Other(c)))
      ensures timestamp == old(timestamp) && requests == old(requests)
    {
      if c == Contas {
        contas := a;
      } else {
        entradas := a;
      }
    }

    /** updateMemoryCache: replace the cache and stamp it with the current instant. */
    method UpdateMemoryCache(contas: RecordArray?, entradas: RecordArray?, now: int)
      modifies this
      ensures this.contas == contas && this.entradas == entradas && timestamp == Some(now)
      ensures requests == old(requests)
      ensures now != 0 ==> forall t :: now <= t < now + CacheDuration ==> IsCacheValid(t)
      ensures forall t :: t >= now + CacheDuration ==> !IsCacheValid(t)
    {
      this.contas := contas;
      this.entradas := entradas;
      timestamp := Some(now);
    }

    /** carregarContas / carregarEntradas. The cache is consulted at instant now, the GET is
        answered with reply, and the cache is consulted again at instant later, after the
        answer. Never fails: a valid cache answers directly; otherwise the API's list is
        answered, and remembered only if the cache is valid by then; on failure the cached
        array is answered even if expired, and an empty list when there is none. */
    method Carregar(c: Collection, now: int, reply: Reply<seq<Record>>, later: int) returns (list: RecordArray)
      modifies this
      ensures list.elems == old(LoadResult(c, now, reply))
      ensures old(LoadsFromCache(c, now, reply)) ==> list == old(Cached(c))
      ensures !old(LoadsFromCache(c, now, reply)) ==> fresh(list)
      ensures requests == old(requests) + old(LoadRequests(c, now))
      ensures timestamp == old(timestamp) && Cached(Other(c)) == old(Cached(Other(c)))
      ensures Cached(c) == if !old(LoadsFromCache(c, now, reply)) && reply.Ok? && IsCacheValid(later) then list else old(Cached(c))
    {
      var cached := Cached(c);
      if IsCacheValid(now) && cached != null {
        return cached;
      }
      requests := requests + [Fetch(c)];
      match reply
      case Ok(v) =>
        list := new RecordArray(v);
        if IsCacheValid(later) {
          SetCached(c, list);
        }
      case Err =>
        if cached != null {
          list := cached;
        } else {
          list := new RecordArray([]);
        }
    }

    /** salvarContas / salvarEntradas: POST the list; on success, remember it if the cache is
        valid at instant now. Answers whether the POST succeeded. */
    method Salvar(c: Collection, list: RecordArray, reply: Reply<()>, now: int) returns (ok: bool)
      modifies this
      ensures ok == reply.Ok?
      ensures requests == old(requests) + [Store(c, list.elems)]
      ensures timestamp == old(timestamp) && Cached(Other(c)) == old(Cached(Other(c)))
      ensures Cached(c) == if reply.Ok? && IsCacheValid(now) then list else old(Cached(c))
    {
      requests := requests + [Store(c, list.elems)];
      if reply.Err? {
        return false;
      }
      if IsCacheValid(now) {
        SetCached(c, list);
      }
      return true;
    }

    /** adicionarConta / adicionarEntrada: give the record a new id and creation time, push it
        onto the loaded list (which may be the cached array itself, so the cache sees it even
        when the save fails), save the list, and answer the record if saved, null otherwise. */
    method Adicionar(c: Collection, record: RecordObject, id: string, created: string,
                     now: int, r1: Reply<seq<Record>>, later: int, r2: Reply<()>, saved: int)
      returns (result: RecordObject?)
      modifies this, contas, entradas, record
      ensures record.fields == old(record.fields)["id" := Str(id)]["dataCriacao" := Str(created)]
      ensures requests == old(requests) + old(LoadRequests(c, now)) + [Store(c, old(LoadResult(c, now, r1)) + [record.fields])]
      ensures result == if r2.Ok? then record else null
      ensures timestamp == old(timestamp) && Cached(Other(c)) == old(Cached(Other(c)))
      ensures old(LoadsFromCache(c, now, r1)) ==>
        Cached(c) == old(Cached(c)) && Cached(c).elems == old(LoadResult(c, now, r1)) + [record.fields]
      ensures !old(LoadsFromCache(c, now, r1)) ==>
        if (r1.Ok? && IsCacheValid(later)) || (r2.Ok? && IsCacheValid(saved))
        then fresh(Cached(c)) && Cached(c).elems == old(LoadResult(c, now, r1)) + [record.fields]
        else Cached(c) == old(Cached(c))
      ensures var a := old(contas); a != null && !(old(LoadsFromCache(c, now, r1)) && a == old(Cached(c))) ==> a.elems == old(a.elems)
      ensures var a := old(entradas); a != null && !(old(LoadsFromCache(c, now, r1)) && a == old(Cached(c))) ==> a.elems == old(a.elems)
    {
      var list := Carregar(c, now, r1, later);
      record.fields := record.fields["id" := Str(id)]["dataCriacao" := Str(created)];
      list.Push(record.fields);
      var salvo := Salvar(c, list, r2, saved);
      result := if salvo then record else null;
    }

    /** atualizarConta / atualizarEntrada: merge the patch into the first record with the id,
        in place in the loaded list, and save the list; a missing id answers None without
        saving. Answers the merged record if saved. */
    method Atualizar(c: Collection, id: Value, patch: Record,
                     now: int, r1: Reply<seq<Record>>, later: int, r2: Reply<()>, saved: int)
      returns (result: Option<Record>)
      modifies this, contas, entradas
      ensures var l := old(LoadResult(c, now, r1));
        FindIndex(l, id) == -1 ==> result == None && requests == old(requests) + old(LoadRequests(c, now))
      ensures var l := old(LoadResult(c, now, r1));
        FindIndex(l, id) != -1 ==> requests == old(requests) + old(LoadRequests(c, now)) + [Store(c, UpdateFirst(l, id, patch))]
      ensures var l := old(LoadResult(c, now, r1));
        FindIndex(l, id) != -1 ==> result == if r2.Ok? then Some(l[FindIndex(l, id)] + patch) else None
      ensures timestamp == old(timestamp) && Cached(Other(c)) == old(Cached(Other(c)))
      ensures old(LoadsFromCache(c, now, r1)) ==>
        Cached(c) == old(Cached(c)) && Cached(c).elems == UpdateFirst(old(LoadResult(c, now, r1)), id, patch)
      ensures !old(LoadsFromCache(c, now, r1)) ==>
        if (r1.Ok? && IsCacheValid(later)) || (FindIndex(old(LoadResult(c, now, r1)), id) != -1 && r2.Ok? && IsCacheValid(saved))
        then fresh(Cached(c)) && Cached(c).elems == UpdateFirst(old(LoadResult(c, now, r1)), id, patch)
        else Cached(c) == old(Cached(c))
      ensures var a := old(contas); a != null && !(old(LoadsFromCache(c, now, r1)) && a == old(Cached(c))) ==> a.elems == old(a.elems)
      ensures var a := old(entradas); a != null && !(old(LoadsFromCache(c, now, r1)) && a == old(Cached(c))) ==> a.elems == old(a.elems)
    {
      ghost var l := LoadResult(c, now, r1);
      ghost var u := UpdateFirst(l, id, patch);
      var list := Carregar(c, now, r1, later);
      var index := FindIndex(list.elems, id);
      if index != -1 {
        list.Set(index, Merge(list.elems[index], patch));
        assert list.elems == u;
        var salvo := Salvar(c, list, r2, saved);
        result := if salvo then Some(list.elems[index]) else None;
      } else {
        assert u == l;
        result := None;
      }
    }

    /** excluirConta / excluirEntrada: save the loaded list without every record of that id
        (a save is sent even when none has it). Answers whether the save succeeded and
        something was removed. */
    method Excluir(c: Collection, id: Value, now: int, r1: Reply<seq<Record>>, later: int, r2: Reply<()>, saved: int)
      returns (ok: bool)
      modifies this
      ensures var l := old(LoadResult(c, now, r1));
        && requests == old(requests) + old(LoadRequests(c, now)) + [Store(c, RemoveId(l, id))]
        && ok == (r2.Ok? && FindIndex(l, id) != -1)
      ensures timestamp == old(timestamp) && Cached(Other(c)) == old(Cached(Other(c)))
      ensures r2.Ok? && IsCacheValid(saved) ==>
        fresh(Cached(c)) && Cached(c).elems == RemoveId(old(LoadResult(c, now, r1)), id)
      ensures !(r2.Ok? && IsCacheValid(saved)) ==>
        if !old(LoadsFromCache(c, now, r1)) && r1.Ok? && IsCacheValid(later)
        then fresh(Cached(c)) && Cached(c).elems == old(LoadResult(c, now, r1))
        else Cached(c) == old(Cached(c))
    {
      var list := Carregar(c, now, r1, later);
      var filtradas := new RecordArray(RemoveId(list.elems, id));
      var salvo := Salvar(c, filtradas, r2, saved);
      RemoveIdSpec(list.elems, id);
      ok := salvo && |list.elems| != |filtradas.elems|;
    }

    /** limparDados: save an empty list of each collection, forget the cache, and answer true
        whatever the saves answered. */
    method LimparDados(rContas: Reply<()>, tContas: int, rEntradas: Reply<()>, tEntradas: int) returns (ok: bool)
      modifies this
      ensures ok
      ensures requests == old(requests) + [Store(Contas, []), Store(Entradas, [])]
      ensures contas == null && entradas == null && timestamp == None
    {
      var vazioContas := new RecordArray([]);
      var vazioEntradas := new RecordArray([]);
      var _ := Salvar(Contas, vazioContas, rContas, tContas);
      var _ := Salvar(Entradas, vazioEntradas, rEntradas, tEntradas);
      contas, entradas, timestamp := null, null, None;
      return true;
    }

    /** exportarDados: the dataset with the export time and its source added; offline, the
        cached lists (or empty ones) marked as coming from the memory cache. */
    method ExportarDados(reply: Reply<Dataset>, created: string) returns (e: Dataset)
      modifies this
      ensures requests == old(requests) + [FetchDados]
      ensures contas == old(contas) && entradas == old(entradas) && timestamp == old(timestamp)
      ensures reply.Ok? ==>
        && e.contas == reply.value.contas && e.entradas == reply.value.entradas
        && e.rest.Keys == reply.value.rest.Keys + {"dataExportacao", "fonte"}
        && e.rest["dataExportacao"] == Scalar(Str(created)) && e.rest["fonte"] == Scalar(Str("JSON Files"))
        && forall k :: k in reply.value.rest && k != "dataExportacao" && k != "fonte" ==> e.rest[k] == reply.value.rest[k]
      ensures reply.Err? ==>
        && e.contas == Some(if contas != null then contas.elems else [])
        && e.entradas == Some(if entradas != null then entradas.elems else [])
        && e.rest == map["dataExportacao" := Scalar(Str(created)), "fonte" := Scalar(Str("Memory Cache (Offline)"))]
    {
      requests := requests + [FetchDados];
      match reply
      case Ok(dados) =>
        e := Dataset(dados.contas, dados.entradas,
                     dados.rest + map["dataExportacao" := Scalar(Str(created)), "fonte" := Scalar(Str("JSON Files"))]);
      case Err =>
        var cs := if contas != null then contas.elems else [];
        var es := if entradas != null then entradas.elems else [];
        e := Dataset(Some(cs), Some(es), map["dataExportacao" := Scalar(Str(created)), "fonte" := Scalar(Str("Memory Cache (Offline)"))]);
    }

    /** importarDados: POST the dataset; on success forget the cache so that the next loads
        refetch, on failure leave it as it is. */
    method ImportarDados(dados: Dataset, reply: Reply<()>) returns (ok: bool)
      modifies this
      ensures ok == reply.Ok?
      ensures requests == old(requests) + [StoreDados(dados)]
      ensures ok ==> contas == null && entradas == null && timestamp == None
      ensures !ok ==> contas == old(contas) && entradas == old(entradas) && timestamp == old(timestamp)
    {
      requests := requests + [StoreDados(dados)];
      if reply.Err? {
        return false;
      }
      contas, entradas, timestamp := null, null, None;
      return true;
    }

    /** verificarConexaoAPI: whether GET /health succeeded. */
    method VerificarConexaoAPI(reply: Reply<()>) returns (ok: bool)
      modifies this
      ensures ok == reply.Ok?
      ensures requests == old(requests) + [Health]
      ensures contas == old(contas) && entradas == old(entradas) && timestamp == old(timestamp)
    {
      requests := requests + [Health];
      ok := reply.Ok?;
    }

    /** obterEstatisticas: the statistics of the dataset GET /dados answered, at instant now;
        the all-zero structure when the request fails. */
    method ObterEstatisticas(parse: DateParser, reply: Reply<Dataset>, now: JsDate) returns (s: Estatisticas)
      modifies this
      ensures requests == old(requests) + [FetchDados]
      ensures contas == old(contas) && entradas == old(entradas) && timestamp == old(timestamp)
      ensures s == if reply.Ok? then ComputeStatistics(parse, OrEmpty(reply.value.contas), OrEmpty(reply.value.entradas), now)
                   else Zeradas
    {
      requests := requests + [FetchDados];
      if reply.Err? {
        return Zeradas;
      }
      var listaContas := OrEmpty(reply.value.contas);
      var listaEntradas := OrEmpty(reply.value.entradas);
      var aPagar := Filter(listaContas, StatusIs(APagar));
      var pagas := Filter(listaContas, StatusIs(Pago));
      var vencidas := Filter(listaContas, VencidaTest(parse, now));
      var totalAPagar := SumOf(aPagar, ContaAmount);
      var totalPagas := SumOf(pagas, ContaAmount);
      var mes := Filter(listaEntradas, NoMesAtualTest(parse, now));
      var totalMes := SumOf(mes, EntryAmount);
      var porTipo := GroupByType(mes);
      s := Estatisticas(
        ContasResumo(|listaContas|, |aPagar|, |pagas|, |vencidas|, totalAPagar, totalPagas),
        EntradasResumo(|mes|, totalMes, MediaDiaria(|mes|, totalMes), porTipo),
        Minus(totalMes, totalAPagar));
    }
  }

  // ---------------------------------------------------------------------------
  // Scenarios of the cache

  /** From a fresh manager, a load that fails answers an empty list. */
  method ColdOfflineLoad(c: Collection, now: int, later: int) returns (elems: seq<Record>)
    ensures elems == []
  {
    var m := new StorageManager();
    var list := m.Carregar(c, now, Err, later);
    elems := list.elems;
  }

  /** A successful load does not fill the cache by itself, so a later failed load of the same
      collection, however soon, still answers an empty list. */
  method LoadThenOffline(c: Collection, v: seq<Record>, t1: int, t2: int, t3: int, t4: int)
    returns (first: seq<Record>, second: seq<Record>)
    ensures first == v && second == []
  {
    var m := new StorageManager();
    var a := m.Carregar(c, t1, Ok(v), t2);
    first := a.elems;
    var b := m.Carregar(c, t3, Err, t4);
    second := b.elems;
  }

  /** After an external stamp, a load within the time-to-live answers the cached list without a
      request, and a failed load after it has expired still answers that stale list. */
  method StampedThenStale(v: seq<Record>, stamp: int, now: int, r: Reply<seq<Record>>, expired: int, later: int)
    returns (fresh1: seq<Record>, ghost sent: int, stale: seq<Record>)
    requires stamp != 0 && stamp <= now < stamp + CacheDuration && expired >= stamp + CacheDuration
    ensures fresh1 == v && sent == 0 && stale == v
  {
    var m := new StorageManager();
    var a := new RecordArray(v);
    m.UpdateMemoryCache(a, null, stamp);
    var b := m.Carregar(Contas, now, r, now);
    fresh1 := b.elems;
    sent := |m.requests|;
    var d := m.Carregar(Contas, expired, Err, later);
    stale := d.elems;
  }

  /** Adding to a list answered from the cache changes the cached array even when the save
      fails and the add answers null. */
  method FailedAddStillCached(v: seq<Record>, r: Record, stamp: int, now: int, id: string, created: string)
    returns (result: bool, cached: seq<Record>)
    requires stamp != 0 && stamp <= now < stamp + CacheDuration
    ensures !result && cached == v + [r["id" := Str(id)]["dataCriacao" := Str(created)]]
  {
    var m := new StorageManager();
    var a := new RecordArray(v);
    m.UpdateMemoryCache(a, null, stamp);
    var record := new RecordObject(r);
    var added := m.Adicionar(Contas, record, id, created, now, Err, now, Err, now);
    result := added != null;
    cached := a.elems;
  }

  /** Deleting an id no record has still sends the unchanged list, and answers false. */
  method ExcluirAusente(v: seq<Record>, id: Value, t: int)
    returns (ok: bool, ghost body: seq<Record>)
    requires forall i :: 0 <= i < |v| ==> Id(v[i]) != id
    ensures !ok && body == v
  {
    var m := new StorageManager();
    ok := m.Excluir(Contas, id, t, Ok(v), t, Ok(()), t);
    RemoveIdSpec(v, id);
    body := m.requests[1].body;
  }
}
