/**
 * The figures that StorageManager.obterEstatisticas derives from a dataset:
 * counts and sums of the accounts by status, the overdue accounts, the income
 * entries of the current month, their sum per entry type, the daily average
 * and the balance.
 */
module Statistics {
  import opened Values
  import opened Calendar
  import opened DateUtils
  import opened RecordLists

  const APagar: string := "à pagar"
  const Pago: string := "pago"

  /** The test `c => c.status === status`. */
  function StatusIs(status: string): Record -> bool {
    (c: Record) => Get(c, "status") == Str(status)
  }

  /** `DateUtils.isValidDate(v)` on a date field holding a string. */
  predicate ValidDateField(parse: DateParser, v: Value) {
    v.Str? && IsValidDate(parse, v.s)
  }

  /** An account that is not paid, whose due date is valid, and whose due day's local
      midnight lies before the current instant. */
  predicate IsVencida(parse: DateParser, now: JsDate, c: Record) {
    var v := Get(c, "dataVencimento");
    if StatusIs(Pago)(c) then false
    else if !ValidDateField(parse, v) then false
    else Before(NewDate(parse, v.s), now)
  }

  function VencidaTest(parse: DateParser, now: JsDate): Record -> bool {
    (c: Record) => IsVencida(parse, now, c)
  }

  /** `a.getMonth() === b.getMonth() && a.getFullYear() === b.getFullYear()` in local time. */
  predicate SameMonth(a: JsDate, b: JsDate) {
    a.Moment? && b.Moment?
    && FromDayNumber(a.day).month == FromDayNumber(b.day).month
    && FromDayNumber(a.day).year == FromDayNumber(b.day).year
  }

  /** An income entry whose valid date lies in the current local month. */
  predicate NoMesAtual(parse: DateParser, now: JsDate, e: Record) {
    var v := Get(e, "dataEntrada");
    if !ValidDateField(parse, v) then false
    else SameMonth(NewDate(parse, v.s), now)
  }

  function NoMesAtualTest(parse: DateParser, now: JsDate): Record -> bool {
    (e: Record) => NoMesAtual(parse, now, e)
  }

  /** `parseFloat(c.valor)` */
  function ContaAmount(c: Record): Number {
    ParseFloat(Get(c, "valor"))
  }

  /** `parseFloat(e.valorCalculado || e.valor)` */
  function EntryAmount(e: Record): Number {
    var calculado := Get(e, "valorCalculado");
    ParseFloat(if Truthy(calculado) then calculado else Get(e, "valor"))
  }

  function Tipo(e: Record): Value {
    Get(e, "tipoEntrada")
  }

  function TipoIs(k: Value): Record -> bool {
    (e: Record) => Tipo(e) == k
  }

  // ---------------------------------------------------------------------------
  // The per-type totals, an object filled in insertion order

  /** One property of `entradasPorTipo`. */
  datatype Tally = Tally(tipo: Value, total: Number)

  /** `porTipo[k]`: the total of type k, None when the property is absent. */
  function Lookup(t: seq<Tally>, k: Value): (r: Option<Number>)
    ensures r.None? <==> forall i :: 0 <= i < |t| ==> t[i].tipo != k
  {
    if |t| == 0 then None
    else if t[0].tipo == k then Some(t[0].total)
    else Lookup(t[1..], k)
  }

  /** `porTipo[k] = n`: overwrite an existing property in place, or add a new one at the end. */
  function Put(t: seq<Tally>, k: Value, n: Number): seq<Tally> {
    if |t| == 0 then [Tally(k, n)]
    else if t[0].tipo == k then [Tally(k, n)] + t[1..]
    else [t[0]] + Put(t[1..], k, n)
  }

  /** The totals of the distinct types, added up. */
  function TallyTotal(t: seq<Tally>): Number {
    if |t| == 0 then Fin(0.0) else Plus(t[0].total, TallyTotal(t[1..]))
  }

  /** One turn of the forEach: restart a falsy total (absent, 0 or NaN) at 0, then add the amount. */
  function AddEntry(t: seq<Tally>, e: Record): seq<Tally> {
    var k := Tipo(e);
    var cur := Lookup(t, k);
    var base := if cur.Some? && NumberTruthy(cur.value) then cur.value else Fin(0.0);
    Put(t, k, Plus(base, EntryAmount(e)))
  }

  /** `entradasPorTipo` after the forEach over the entries of the month. */
  function PorTipo(es: seq<Record>): seq<Tally> {
    if |es| == 0 then [] else AddEntry(PorTipo(es[..|es| - 1]), es[|es| - 1])
  }

  /** The forEach of obterEstatisticas that fills `entradasPorTipo`. */
  method GroupByType(entradasMes: seq<Record>) returns (porTipo: seq<Tally>)
    ensures porTipo == PorTipo(entradasMes)
  {
    porTipo := [];
    for i := 0 to |entradasMes|
      invariant porTipo == PorTipo(entradasMes[..i])
    {
      var entrada := entradasMes[i];
      var k := Tipo(entrada);
      var cur := Lookup(porTipo, k);
      ghost var before := porTipo;
      if !(cur.Some? && NumberTruthy(cur.value)) {
        porTipo := Put(porTipo, k, Fin(0.0));
      }
      PutLookup(before, k, Fin(0.0), k);
      var atual := Lookup(porTipo, k);
      porTipo := Put(porTipo, k, Plus(atual.value, EntryAmount(entrada)));
      PutPut(before, k, Fin(0.0), Plus(atual.value, EntryAmount(entrada)));
      assert entradasMes[..i + 1][..i] == entradasMes[..i];
    }
    assert entradasMes[..|entradasMes|] == entradasMes;
  }

  // ---------------------------------------------------------------------------
  // The result structure

  datatype ContasResumo = ContasResumo(total: int, aPagar: int, pagas: int, vencidas: int,
                                       valorAPagar: Number, valorPago: Number)
  datatype EntradasResumo = EntradasResumo(totalMes: int, valorMes: Number, mediaDiaria: Number,
                                           porTipo: seq<Tally>)
  datatype Estatisticas = Estatisticas(contas: ContasResumo, entradas: EntradasResumo, saldo: Number)

  /** The structure returned when anything fails. */
  const Zeradas: Estatisticas :=
    Estatisticas(ContasResumo(0, 0, 0, 0, Fin(0.0), Fin(0.0)), EntradasResumo(0, Fin(0.0), Fin(0.0), []), Fin(0.0))

  function ContasAPagar(contas: seq<Record>): seq<Record> {
    Filter(contas, StatusIs(APagar))
  }

  function ContasPagas(contas: seq<Record>): seq<Record> {
    Filter(contas, StatusIs(Pago))
  }

  function ContasVencidas(parse: DateParser, now: JsDate, contas: seq<Record>): seq<Record> {
    Filter(contas, VencidaTest(parse, now))
  }

  function EntradasMes(parse: DateParser, now: JsDate, entradas: seq<Record>): seq<Record> {
    Filter(entradas, NoMesAtualTest(parse, now))
  }

  /** `n > 0 ? total / 30 : 0` */
  function MediaDiaria(n: int, total: Number): Number {
    if n > 0 then (if total.Fin? then Fin(total.x / 30.0) else NaN) else Fin(0.0)
  }

  /** The statistics of the accounts and entries of a dataset at the instant now. */
  function ComputeStatistics(parse: DateParser, contas: seq<Record>, entradas: seq<Record>, now: JsDate): Estatisticas {
    var aPagar := ContasAPagar(contas);
    var pagas := ContasPagas(contas);
    var vencidas := ContasVencidas(parse, now, contas);
    var totalAPagar := SumOf(aPagar, ContaAmount);
    var totalPagas := SumOf(pagas, ContaAmount);
    var mes := EntradasMes(parse, now, entradas);
    var totalMes := SumOf(mes, EntryAmount);
    Estatisticas(
      ContasResumo(|contas|, |aPagar|, |pagas|, |vencidas|, totalAPagar, totalPagas),
      EntradasResumo(|mes|, totalMes, MediaDiaria(|mes|, totalMes), PorTipo(mes)),
      Minus(totalMes, totalAPagar))
  }

  // ---------------------------------------------------------------------------
  // Properties of the per-type totals

  lemma {:induction false} PutLookup(t: seq<Tally>, k: Value, n: Number, j: Value)
    ensures Lookup(Put(t, k, n), j) == if j == k then Some(n) else Lookup(t, j)
  {
    if |t| > 0 && t[0].tipo != k {
      PutLookup(t[1..], k, n, j);
      assert Put(t, k, n)[1..] == Put(t[1..], k, n);
    }
  }

  lemma {:induction false} PutPut(t: seq<Tally>, k: Value, a: Number, b: Number)
    ensures Put(Put(t, k, a), k, b) == Put(t, k, b)
  {
    if |t| > 0 && t[0].tipo != k {
      PutPut(t[1..], k, a, b);
      assert Put(t, k, a)[1..] == Put(t[1..], k, a);
    }
  }

  /** Adding to a type's total changes the grand total by the same amount. */
  lemma {:induction false} PutTotal(t: seq<Tally>, k: Value, n: Number)
    requires forall i :: 0 <= i < |t| ==> t[i].total.Fin?
    requires n.Fin?
    ensures forall i :: 0 <= i < |Put(t, k, n)| ==> Put(t, k, n)[i].total.Fin?
    ensures TallyTotal(t).Fin? && TallyTotal(Put(t, k, n)).Fin?
    ensures Lookup(t, k).Some? ==> Lookup(t, k).value.Fin?
    ensures TallyTotal(Put(t, k, n)).x == TallyTotal(t).x + n.x - (if Lookup(t, k).Some? then Lookup(t, k).value.x else 0.0)
  {
    if |t| > 0 {
      var p := Put(t, k, n);
      if t[0].tipo == k {
        assert p[1..] == t[1..];
        TotalFinite(t[1..]);
      } else {
        PutTotal(t[1..], k, n);
        assert p[1..] == Put(t[1..], k, n);
        assert p[0] == t[0];
      }
    }
  }

  lemma {:induction false} TotalFinite(t: seq<Tally>)
    requires forall i :: 0 <= i < |t| ==> t[i].total.Fin?
    ensures TallyTotal(t).Fin?
  {
    if |t| > 0 {
      TotalFinite(t[1..]);
    }
  }

  /** With finite amounts, porTipo holds finite totals whose sum is the sum of all the amounts. */
  lemma {:induction false} PorTipoTotal(es: seq<Record>)
    requires forall i :: 0 <= i < |es| ==> EntryAmount(es[i]).Fin?
    ensures forall i :: 0 <= i < |PorTipo(es)| ==> PorTipo(es)[i].total.Fin?
    ensures TallyTotal(PorTipo(es)) == SumOf(es, EntryAmount)
  {
    if |es| > 0 {
      var es', e := es[..|es| - 1], es[|es| - 1];
      PorTipoTotal(es');
      var t := PorTipo(es');
      var k := Tipo(e);
      var cur := Lookup(t, k);
      if cur.Some? {
        LookupIn(t, k);
      }
      var base := if cur.Some? && NumberTruthy(cur.value) then cur.value else Fin(0.0);
      assert base == (if cur.Some? then cur.value else Fin(0.0));
      PutTotal(t, k, Plus(base, EntryAmount(e)));
    }
  }

  lemma {:induction false} LookupIn(t: seq<Tally>, k: Value)
    requires Lookup(t, k).Some?
    ensures exists i :: 0 <= i < |t| && t[i].tipo == k && t[i].total == Lookup(t, k).value
  {
    if t[0].tipo != k {
      LookupIn(t[1..], k);
      var i :| 1 <= i + 1 < |t| && t[1..][i].tipo == k && t[1..][i].total == Lookup(t, k).value;
      assert t[i + 1] == t[1..][i];
    }
  }

  /** porTipo has a property for exactly the types that occur among the entries. */
  lemma {:induction false} PorTipoKeys(es: seq<Record>, k: Value)
    ensures Lookup(PorTipo(es), k).Some? <==> exists i :: 0 <= i < |es| && Tipo(es[i]) == k
  {
    if |es| > 0 {
      var es', e := es[..|es| - 1], es[|es| - 1];
      PorTipoKeys(es', k);
      var t := PorTipo(es');
      var cur := Lookup(t, Tipo(e));
      PutLookup(t, Tipo(e), Plus(if cur.Some? && NumberTruthy(cur.value) then cur.value else Fin(0.0), EntryAmount(e)), k);
      if exists i :: 0 <= i < |es'| && Tipo(es'[i]) == k {
        var i :| 0 <= i < |es'| && Tipo(es'[i]) == k;
        assert es[i] == es'[i];
      }
      if exists i :: 0 <= i < |es| && Tipo(es[i]) == k {
        var i :| 0 <= i < |es| && Tipo(es[i]) == k;
        if i < |es'| {
          assert es'[i] == es[i];
        }
      }
    }
  }

  /** With finite amounts, the property of each type holds the sum of the amounts of that type. */
  lemma {:induction false} PorTipoLookup(es: seq<Record>, k: Value)
    requires forall i :: 0 <= i < |es| ==> EntryAmount(es[i]).Fin?
    ensures Lookup(PorTipo(es), k).Some? ==> Lookup(PorTipo(es), k).value == SumOf(Filter(es, TipoIs(k)), EntryAmount)
  {
    if |es| > 0 {
      var es', e := es[..|es| - 1], es[|es| - 1];
      assert forall i :: 0 <= i < |es'| ==> es'[i] == es[i];
      PorTipoLookup(es', k);
      PorTipoTotal(es');
      var t := PorTipo(es');
      var j := Tipo(e);
      var cur := Lookup(t, j);
      var base := if cur.Some? && NumberTruthy(cur.value) then cur.value else Fin(0.0);
      PutLookup(t, j, Plus(base, EntryAmount(e)), k);
      if j == k {
        if cur.Some? {
          LookupIn(t, k);
        } else {
          PorTipoKeys(es', k);
          FilterEmpty(es', TipoIs(k));
        }
      }
    }
  }

  lemma {:induction false} FilterEmpty(s: seq<Record>, p: Record -> bool)
    requires forall i :: 0 <= i < |s| ==> !p(s[i])
    ensures Filter(s, p) == []
  {
    if |s| > 0 {
      FilterEmpty(s[..|s| - 1], p);
    }
  }

  /** A NaN total is falsy, so the next entry of that type restarts it from 0. */
  lemma NaNTotalRestarts(t: seq<Tally>, e: Record)
    requires Lookup(t, Tipo(e)) == Some(NaN)
    ensures Lookup(AddEntry(t, e), Tipo(e)) == Some(EntryAmount(e))
  {
    PutLookup(t, Tipo(e), Plus(Fin(0.0), EntryAmount(e)), Tipo(e));
  }

  /** The property names of `entradasPorTipo`, in insertion order. */
  function Tipos(t: seq<Tally>): (ks: seq<Value>)
    ensures |ks| == |t| && forall i :: 0 <= i < |t| ==> ks[i] == t[i].tipo
  {
    if |t| == 0 then [] else [t[0].tipo] + Tipos(t[1..])
  }

  predicate Distinct(ks: seq<Value>) {
    forall i, j :: 0 <= i < j < |ks| ==> ks[i] != ks[j]
  }

  /** Assigning to an existing property keeps the order of the names; a new name goes last. */
  lemma {:induction false} PutOrder(t: seq<Tally>, k: Value, n: Number)
    ensures Tipos(Put(t, k, n)) == if Lookup(t, k).Some? then Tipos(t) else Tipos(t) + [k]
  {
    if |t| > 0 && t[0].tipo != k {
      PutOrder(t[1..], k, n);
      assert Put(t, k, n)[1..] == Put(t[1..], k, n);
    }
  }

  /** Every entry type appears once in porTipo, in the order of its first entry. */
  lemma {:induction false} PorTipoDistinct(es: seq<Record>)
    ensures Distinct(Tipos(PorTipo(es)))
  {
    if |es| > 0 {
      var es', e := es[..|es| - 1], es[|es| - 1];
      PorTipoDistinct(es');
      var t := PorTipo(es');
      var cur := Lookup(t, Tipo(e));
      PutOrder(t, Tipo(e), Plus(if cur.Some? && NumberTruthy(cur.value) then cur.value else Fin(0.0), EntryAmount(e)));
    }
  }

  // ---------------------------------------------------------------------------
  // Properties of the statistics

  /** The counts: every account is counted once in total; no account is both to pay and paid,
      and a paid account is never overdue, so neither pair outnumbers the accounts. */
  lemma {:induction false} ContasCounts(parse: DateParser, contas: seq<Record>, entradas: seq<Record>, now: JsDate)
    ensures var r := ComputeStatistics(parse, contas, entradas, now).contas;
      && r.total == |contas|
      && r.aPagar + r.pagas <= r.total
      && r.vencidas + r.pagas <= r.total
      && r.vencidas <= r.total
    ensures forall c :: c in ContasVencidas(parse, now, contas) ==> c in contas && !StatusIs(Pago)(c)
  {
    hide FromDayNumber, YearOf, MonthOf, DaysBeforeYear;
    FilterDisjoint(contas, StatusIs(APagar), StatusIs(Pago));
    FilterDisjoint(contas, VencidaTest(parse, now), StatusIs(Pago));
  }

  /** An account is overdue exactly when it is not paid, its due date is a valid string, and
      that day's midnight comes before now: an earlier day, or today once midnight has passed. */
  lemma VencidaIff(parse: DateParser, now: JsDate, c: Record)
    ensures IsVencida(parse, now, c) <==>
      && Get(c, "status") != Str(Pago)
      && Get(c, "dataVencimento").Str? && Get(c, "dataVencimento").s != ""
      && parse(Get(c, "dataVencimento").s).Some?
      && now.Moment?
      && var n := parse(Get(c, "dataVencimento").s).value;
         n < now.day || (n == now.day && 0 < now.ms)
  {
  }

  /** An account due today, not paid, counts as overdue as soon as the day has begun. */
  lemma {:induction false} DueTodayIsVencida(parse: DateParser, now: JsDate, c: Record)
    requires Conservative(parse)
    requires Get(c, "status") != Str(Pago) && Get(c, "dataVencimento").Str?
    requires ParseIso(Get(c, "dataVencimento").s).Some?
    requires now.Moment? && now.day == DayNumber(ParseIso(Get(c, "dataVencimento").s).value) && now.ms > 0
    ensures IsVencida(parse, now, c)
  {
    hide FromDayNumber, YearOf, MonthOf, DaysBeforeYear, DayNumber, ParseIso;
    VencidaIff(parse, now, c);
  }

  /** An entry outside the current month changes none of the entry figures nor the balance. */
  lemma {:induction false} EntradaForaDoMes(parse: DateParser, contas: seq<Record>, antes: seq<Record>, e: Record,
                                             depois: seq<Record>, now: JsDate)
    requires !NoMesAtual(parse, now, e)
    ensures ComputeStatistics(parse, contas, antes + [e] + depois, now) == ComputeStatistics(parse, contas, antes + depois, now)
  {
    hide FromDayNumber, YearOf, MonthOf, DaysBeforeYear, PorTipo, SumOf;
    var p := NoMesAtualTest(parse, now);
    FilterAppend(antes + [e], depois, p);
    FilterAppend(antes, [e], p);
    FilterAppend(antes, depois, p);
    assert Filter([e], p) == [];
    assert EntradasMes(parse, now, antes + [e] + depois) == EntradasMes(parse, now, antes + depois);
  }

  /** With finite amounts, the per-type totals add up to the month's total. */
  lemma {:induction false} PorTipoSomaValorMes(parse: DateParser, contas: seq<Record>, entradas: seq<Record>, now: JsDate)
    requires forall e :: e in entradas ==> EntryAmount(e).Fin?
    ensures var r := ComputeStatistics(parse, contas, entradas, now).entradas;
      TallyTotal(r.porTipo) == r.valorMes && r.valorMes.Fin?
  {
    hide FromDayNumber, YearOf, MonthOf, DaysBeforeYear;
    var mes := EntradasMes(parse, now, entradas);
    assert forall i :: 0 <= i < |mes| ==> mes[i] in entradas;
    PorTipoTotal(mes);
    SumOfFinite(mes, EntryAmount);
  }

  /** With finite amounts every figure is a number: the balance is the month's income minus what is
      still to pay, and the daily average is a thirtieth of the income when some entry counts. */
  lemma {:induction false} SaldoEMedia(parse: DateParser, contas: seq<Record>, entradas: seq<Record>, now: JsDate)
    requires forall c :: c in contas ==> ContaAmount(c).Fin?
    requires forall e :: e in entradas ==> EntryAmount(e).Fin?
    ensures var r := ComputeStatistics(parse, contas, entradas, now);
      && r.contas.valorAPagar.Fin? && r.contas.valorPago.Fin? && r.entradas.valorMes.Fin?
      && r.saldo == Fin(r.entradas.valorMes.x - r.contas.valorAPagar.x)
      && r.entradas.mediaDiaria == (if r.entradas.totalMes > 0 then Fin(r.entradas.valorMes.x / 30.0) else Fin(0.0))
  {
    hide FromDayNumber, YearOf, MonthOf, DaysBeforeYear, PorTipo, IsVencida, NoMesAtual;
    FilteredSumFinite(contas, StatusIs(APagar), ContaAmount);
    FilteredSumFinite(contas, StatusIs(Pago), ContaAmount);
    FilteredSumFinite(entradas, NoMesAtualTest(parse, now), EntryAmount);
  }

  lemma FilteredSumFinite(s: seq<Record>, p: Record -> bool, f: Record -> Number)
    requires forall x :: x in s ==> f(x).Fin?
    ensures SumOf(Filter(s, p), f).Fin?
  {
    var r := Filter(s, p);
    assert forall i :: 0 <= i < |r| ==> r[i] in s;
    SumOfFinite(r, f);
  }

  lemma FilterSingleton(x: Record, p: Record -> bool)
    ensures Filter([x], p) == if p(x) then [x] else []
  {
    assert [x][..0] == [];
  }

  lemma SumOfSingleton(x: Record, f: Record -> Number)
    ensures SumOf([x], f) == Plus(Fin(0.0), f(x))
  {
    assert [x][..0] == [];
  }

  lemma IsoPrimeiroDia2020()
    ensures ParseIso("2020-01-01") == Some(CivilDate(2020, 1, 1))
  {
  }

  /** The worked example: one account of 100 to pay, due 2020-01-01, seen on any later day. */
  lemma {:induction false} ContaVencidaExemplo(parse: DateParser, now: JsDate)
    requires Conservative(parse)
    requires now.Moment? && now.day > DayNumber(CivilDate(2020, 1, 1))
    ensures var conta := map["id" := Str("a1"), "valor" := Num(100.0), "status" := Str("à pagar"),
                             "dataVencimento" := Str("2020-01-01")];
      var r := ComputeStatistics(parse, [conta], [], now).contas;
      r.vencidas == 1 && r.aPagar == 1 && r.valorAPagar == Fin(100.0)
  {
    var conta := map["id" := Str("a1"), "valor" := Num(100.0), "status" := Str("à pagar"),
                     "dataVencimento" := Str("2020-01-01")];
    IsoPrimeiroDia2020();
    assert Get(conta, "dataVencimento") == Str("2020-01-01");
    assert Get(conta, "status") == Str(APagar) && APagar != Pago;
    assert Get(conta, "valor") == Num(100.0);
    hide FromDayNumber, YearOf, MonthOf, DaysBeforeYear, DayNumber, ParseIso, Get;
    assert IsVencida(parse, now, conta);
    FilterSingleton(conta, StatusIs(APagar));
    FilterSingleton(conta, VencidaTest(parse, now));
    SumOfSingleton(conta, ContaAmount);
  }
}
