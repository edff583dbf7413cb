/** Offline replays: a keyed request counts once, however often and however late it is sent again. */
module RejeuLois {
  import opened Commun
  import opened Tables
  import opened Caisse
  import ConstatLois
  import CreditLois

  /** The key under which a request would record its till line. Credit creation is excluded: its key only guards the first payment. */
  function CleDe(r: Requete): Option<string> {
    match r
    case RVente(_, d, _) => d.cle
    case RDepense(_, d, _) => d.cle
    case RPayer(_, id, cle, _) => if cle.Some? then Some(CleReglement(cle, id)) else None
    case RAcompte(_, _, _, cle, _) => if cle.Some? then Some(CleAcompte(cle.value)) else None
    case RStock(_, _, _, _, _, cle) => cle
    case _ => None
  }

  /** The request's key is already recorded — for a sale or an expense, by the same merchant; for a stock update, in its own table. */
  ghost predicate DejaFait(s: Etat, r: Requete) {
    && CleDe(r).Some?
    && if r.RStock? then CleDe(r).value in s.clesStock
       else if r.RVente? || r.RDepense? then CleAMoi(s.ecritures, r.m, CleDe(r).value)
       else ClePrise(s.ecritures, CleDe(r).value)
  }

  /** Whatever the day's session says, a request whose key is recorded changes no table. */
  lemma RejeuSansEffet(s: Etat, r: Requete)
    requires DejaFait(s, r)
    ensures Etape(s, r) == s
  {
  }

  // ── Recorded keys stay, and are unique ──────────────────────────────────

  /** The till only grows, and never changes the key or owner of a line. */
  ghost predicate Prolonge(es: seq<Ecriture>, es': seq<Ecriture>) {
    |es| <= |es'| && forall i :: 0 <= i < |es| ==> es'[i].cle == es[i].cle && es'[i].marchand == es[i].marchand
  }

  ghost predicate ClesUniques(es: seq<Ecriture>) {
    forall i, j :: 0 <= i < j < |es| && es[i].cle.Some? ==> es[i].cle != es[j].cle
  }

  lemma PrisesRestent(es: seq<Ecriture>, es': seq<Ecriture>, m: Marchand, cle: string)
    requires Prolonge(es, es')
    ensures ClePrise(es, cle) ==> ClePrise(es', cle)
    ensures CleAMoi(es, m, cle) ==> CleAMoi(es', m, cle)
  {
    if ClePrise(es, cle) {
      var i :| 0 <= i < |es| && es[i].cle == Some(cle);
      assert es'[i].cle == Some(cle);
    }
    if CleAMoi(es, m, cle) {
      var i :| 0 <= i < |es| && es[i].cle == Some(cle) && es[i].marchand == m;
      assert es'[i].cle == Some(cle) && es'[i].marchand == m;
    }
  }

  lemma VenteProlonge(s: Etat, m: Marchand, d: DemandeVente, t: int)
    requires ClesUniques(s.ecritures)
    ensures var s' := EnregistrerVente(s, m, d, t).0; Prolonge(s.ecritures, s'.ecritures) && ClesUniques(s'.ecritures)
    ensures EnregistrerVente(s, m, d, t).1.Ok? && d.cle.Some? ==> CleAMoi(EnregistrerVente(s, m, d, t).0.ecritures, m, d.cle.value)
  {
    if ConstatLois.VenteAcceptee(s, m, d, t) {
      var e := Ecriture(m, Vente, d.montant.n, Validee, InstantDe(d.date, t), d.cle);
      ConstatLois.LignesGardentEcritures(AssurerSession(s, (m, Jour(t))).(ecritures := s.ecritures + [e]), m, |s.ecritures|, LignesVendues(d));
      assert (s.ecritures + [e])[|s.ecritures|] == e;
    }
  }

  lemma DepenseProlonge(s: Etat, m: Marchand, d: DemandeDepense, t: int)
    requires ClesUniques(s.ecritures)
    ensures var s' := EnregistrerDepense(s, m, d, t).0; Prolonge(s.ecritures, s'.ecritures) && ClesUniques(s'.ecritures)
    ensures EnregistrerDepense(s, m, d, t).1.Ok? && d.cle.Some? ==> CleAMoi(EnregistrerDepense(s, m, d, t).0.ecritures, m, d.cle.value)
  {
    if ConstatLois.DepenseAcceptee(s, m, d, t) {
      var e := Ecriture(m, Depense, d.montant.n, Validee, InstantDe(d.date, t), d.cle);
      assert (s.ecritures + [e])[|s.ecritures|] == e;
    }
  }

  lemma EncaisserProlonge(s: Etat, m: Marchand, id: nat, x: real, cle: string, t: int)
    requires ClesUniques(s.ecritures)
    ensures var s' := EncaisserCredit(s, m, id, x, cle, t).0; Prolonge(s.ecritures, s'.ecritures) && ClesUniques(s'.ecritures)
    ensures EncaisserCredit(s, m, id, x, cle, t).1.Ok? ==> ClePrise(EncaisserCredit(s, m, id, x, cle, t).0.ecritures, cle)
  {
    var s' := EncaisserCredit(s, m, id, x, cle, t).0;
    if |s'.ecritures| > |s.ecritures| { assert s'.ecritures[|s.ecritures|].cle == Some(cle); }
  }

  /** No key is recorded by the routes that carry none. */
  lemma SansCleProlonge(s: Etat, r: Requete)
    requires ClesUniques(s.ecritures)
    requires !r.RVente? && !r.RDepense? && !r.RCredit? && !r.RPayer? && !r.RAcompte?
    ensures var s' := Etape(s, r); Prolonge(s.ecritures, s'.ecritures) && ClesUniques(s'.ecritures)
  {
  }

  lemma CreerProlonge(s: Etat, m: Marchand, d: DemandeCredit, t: int)
    requires ClesUniques(s.ecritures)
    ensures var s' := CreerCredit(s, m, d, t).0; Prolonge(s.ecritures, s'.ecritures) && ClesUniques(s'.ecritures)
  {
    if d.total.Nombre? {
      EncaisserProlonge(PoserCredit(s, m, d.client, d.total.n), m, |s.credits|, Verse(d), CleCreation(d.cle, |s.credits|), t);
    }
  }

  lemma PayerProlonge(s: Etat, m: Marchand, id: nat, cle: Option<string>, t: int)
    requires ClesUniques(s.ecritures)
    ensures var s' := MarquerPaye(s, m, id, cle, t).0; Prolonge(s.ecritures, s'.ecritures) && ClesUniques(s'.ecritures)
  {
    if id < |s.credits| {
      EncaisserProlonge(s, m, id, Arrondir(s.credits[id].total - s.credits[id].acompte), CleReglement(cle, id), t);
    }
  }

  lemma AcompteProlonge(s: Etat, m: Marchand, id: nat, x: Option<real>, cle: Option<string>, t: int)
    requires ClesUniques(s.ecritures)
    ensures var s' := AjouterAcompte(s, m, id, x, cle, t).0; Prolonge(s.ecritures, s'.ecritures) && ClesUniques(s'.ecritures)
  {
    if x.Some? && cle.Some? { EncaisserProlonge(s, m, id, x.value, CleAcompte(cle.value), t); }
  }

  lemma EtapeProlonge(s: Etat, r: Requete)
    requires ClesUniques(s.ecritures)
    ensures var s' := Etape(s, r); Prolonge(s.ecritures, s'.ecritures) && ClesUniques(s'.ecritures)
  {
    match r
    case RVente(m, d, t) => VenteProlonge(s, m, d, t);
    case RDepense(m, d, t) => DepenseProlonge(s, m, d, t);
    case RCredit(m, d, t) => CreerProlonge(s, m, d, t);
    case RPayer(m, id, cle, t) => PayerProlonge(s, m, id, cle, t);
    case RAcompte(m, id, x, cle, t) => AcompteProlonge(s, m, id, x, cle, t);
    case _ => SansCleProlonge(s, r);
  }

  /** Over every run no two till lines share a key: a key is accepted at most once. */
  lemma {:induction false} RunClesUniques(s: Etat, rs: seq<Requete>)
    requires ClesUniques(s.ecritures)
    ensures ClesUniques(Executer(s, rs).ecritures) && Prolonge(s.ecritures, Executer(s, rs).ecritures)
  {
    if rs != [] {
      RunClesUniques(s, rs[..|rs| - 1]);
      EtapeProlonge(Executer(s, rs[..|rs| - 1]), rs[|rs| - 1]);
    }
  }

  lemma ClesStockRestent(s: Etat, r: Requete)
    ensures s.clesStock <= Etape(s, r).clesStock
  {
    if r.RVente? {
      var m, d, t := r.m, r.vente, r.t;
      if ConstatLois.VenteAcceptee(s, m, d, t) {
        var e := Ecriture(m, Vente, d.montant.n, Validee, InstantDe(d.date, t), d.cle);
        ConstatLois.LignesGardentEcritures(AssurerSession(s, (m, Jour(t))).(ecritures := s.ecritures + [e]), m, |s.ecritures|, LignesVendues(d));
      }
    }
  }

  lemma {:induction false} RunClesStock(s: Etat, rs: seq<Requete>)
    ensures s.clesStock <= Executer(s, rs).clesStock
  {
    if rs != [] {
      RunClesStock(s, rs[..|rs| - 1]);
      ClesStockRestent(Executer(s, rs[..|rs| - 1]), rs[|rs| - 1]);
    }
  }

  lemma FaitReste(s: Etat, rs: seq<Requete>, r: Requete)
    requires ClesUniques(s.ecritures) && DejaFait(s, r)
    ensures DejaFait(Executer(s, rs), r)
  {
    RunClesUniques(s, rs);
    RunClesStock(s, rs);
    PrisesRestent(s.ecritures, Executer(s, rs).ecritures, if r.RVente? || r.RDepense? then r.m else 0, CleDe(r).value);
  }

  /** The server answered the request with success. For a payment of a credit already settled, nothing is recorded. */
  predicate Reussit(s: Etat, r: Requete) {
    match r
    case RVente(m, d, t) => EnregistrerVente(s, m, d, t).1.Ok?
    case RDepense(m, d, t) => EnregistrerDepense(s, m, d, t).1.Ok?
    case RPayer(m, id, cle, t) => var x := MarquerPaye(s, m, id, cle, t).1; x.Ok? && x.valeur.Some?
    case RAcompte(m, id, x, cle, t) => AjouterAcompte(s, m, id, x, cle, t).1.Ok?
    case RStock(_, _, _, _, _, _) => true
    case _ => false
  }

  lemma ReussiteEnregistree(s: Etat, r: Requete)
    requires ClesUniques(s.ecritures) && CleDe(r).Some? && Reussit(s, r)
    ensures DejaFait(Etape(s, r), r)
  {
    match r
    case RVente(m, d, t) => VenteProlonge(s, m, d, t);
    case RDepense(m, d, t) => DepenseProlonge(s, m, d, t);
    case RPayer(m, id, cle, t) =>
      EncaisserProlonge(s, m, id, Arrondir(s.credits[id].total - s.credits[id].acompte), CleReglement(cle, id), t);
    case RAcompte(m, id, x, cle, t) => EncaisserProlonge(s, m, id, x.value, CleAcompte(cle.value), t);
    case _ =>
  }

  /** Two requests are the same attempt: same kind of key, same merchant — the amount, day and instant may differ. */
  ghost predicate MemeTentative(r: Requete, r': Requete) {
    && CleDe(r).Some? && CleDe(r) == CleDe(r') && (r.RStock? == r'.RStock?)
    && ((r.RVente? || r.RDepense?) == (r'.RVente? || r'.RDepense?))
    && (r.RVente? || r.RDepense? ==> r.m == r'.m)
  }

  /**
   Exactly once: after a keyed request succeeded, sending it again changes nothing — later in
   any run, after the day was closed, or with other contents — and the rest of the run goes on
   as if it had not been sent.
   */
  lemma UneSeuleFois(s: Etat, avant: seq<Requete>, r: Requete, milieu: seq<Requete>, r': Requete, apres: seq<Requete>)
    requires ClesUniques(s.ecritures) && MemeTentative(r, r') && Reussit(Executer(s, avant), r)
    ensures Executer(s, avant + [r] + milieu + [r'] + apres) == Executer(s, avant + [r] + milieu + apres)
  {
    var a, b := avant + [r], avant + [r] + milieu;
    RunClesUniques(s, avant);
    assert a[..|avant|] == avant;
    ReussiteEnregistree(Executer(s, avant), r);
    RunClesUniques(s, a);
    ExecuterConcat(s, a, milieu);
    FaitReste(Executer(s, a), milieu, r);
    assert DejaFait(Executer(s, b), r');
    RejeuSansEffet(Executer(s, b), r');
    assert (b + [r'])[..|b|] == b;
    ExecuterConcat(s, b + [r'], apres);
    ExecuterConcat(s, b, apres);
  }

  /** A run without its replays: every request whose key was already recorded is removed. */
  ghost function SansRejeux(s: Etat, rs: seq<Requete>): seq<Requete> {
    if rs == [] then []
    else
      var a, r := rs[..|rs| - 1], rs[|rs| - 1];
      if DejaFait(Executer(s, a), r) then SansRejeux(s, a) else SansRejeux(s, a) + [r]
  }

  ghost predicate SansReplique(s: Etat, rs: seq<Requete>) {
    forall k :: 0 <= k < |rs| ==> !DejaFait(Executer(s, rs[..k]), rs[k])
  }

  lemma UneDePlus(s: Etat, rs: seq<Requete>, r: Requete)
    requires SansReplique(s, rs) && !DejaFait(Executer(s, rs), r)
    ensures SansReplique(s, rs + [r]) && Executer(s, rs + [r]) == Etape(Executer(s, rs), r)
  {
    var net := rs + [r];
    assert net[..|rs|] == rs;
    forall k | 0 <= k < |net| ensures !DejaFait(Executer(s, net[..k]), net[k]) {
      if k < |rs| { assert net[..k] == rs[..k]; }
    }
  }

  /** Any run reaches the same tables as the run without its replays, and that run replays nothing. */
  lemma {:induction false} RejeuxSuperflus(s: Etat, rs: seq<Requete>)
    ensures var net := SansRejeux(s, rs);
      Executer(s, net) == Executer(s, rs) && SansReplique(s, net)
  {
    if rs != [] {
      var a, r := rs[..|rs| - 1], rs[|rs| - 1];
      RejeuxSuperflus(s, a);
      if DejaFait(Executer(s, a), r) { RejeuSansEffet(Executer(s, a), r); }
      else { UneDePlus(s, SansRejeux(s, a), r); }
    }
  }

  // ── Keys recorded for something else ────────────────────────────────────

  /** The amount a payment request brings, and its key in the till; the primitive sees no more of it. */
  function PaiementDe(s: Etat, r: Requete): Option<(real, string)> {
    match r
    case RPayer(m, id, cle, _) =>
      if id < |s.credits| then Some((Arrondir(s.credits[id].total - s.credits[id].acompte), CleReglement(cle, id))) else None
    case RAcompte(m, id, x, cle, _) => if x.Some? && x.value > 0.0 && cle.Some? then Some((Arrondir(x.value), CleAcompte(cle.value))) else None
    case _ => None
  }

  /** A payment valid on its own credit, on a day that is not closed: a positive amount, within what is left to pay. */
  predicate PaiementValable(s: Etat, r: Requete) {
    && (r.RPayer? || r.RAcompte?) && PaiementDe(s, r).Some? && !JourFerme(s, (r.m, Jour(r.t)))
    && r.id < |s.credits| && s.credits[r.id].marchand == r.m
    && 0.0 < PaiementDe(s, r).value.0 <= Arrondir(s.credits[r.id].total) - Arrondir(s.credits[r.id].acompte)
  }

  /**
   A payment valid on its own credit always succeeds; and it records nothing if and only if its key is in the
   till already — be it for another credit, another merchant, or a sale.
   */
  lemma PaiementAvale(s: Etat, r: Requete)
    requires PaiementValable(s, r)
    ensures Reussit(s, r)
    ensures Etape(s, r) == s <==> ClePrise(s.ecritures, PaiementDe(s, r).value.1)
    ensures Etape(s, r) != s ==>
      && |Etape(s, r).credits| == |s.credits|
      && Etape(s, r).credits[r.id].acompte == s.credits[r.id].acompte + PaiementDe(s, r).value.0
  {
    var (brut, cle) := PaiementDe(s, r).value;
    var reste := if r.RPayer? then Arrondir(s.credits[r.id].total - s.credits[r.id].acompte) else r.verse.value;
    if r.RPayer? { CreditLois.ArrondiEntier(s.credits[r.id].total - s.credits[r.id].acompte); }
    EncaisserOuAvaler(s, r.m, r.id, reste, cle, r.t);
  }

  lemma EncaisserOuAvaler(s: Etat, m: Marchand, id: nat, brut: real, cle: string, t: int)
    requires id < |s.credits| && s.credits[id].marchand == m && cle != ""
    requires 0.0 < Arrondir(brut) <= Arrondir(s.credits[id].total) - Arrondir(s.credits[id].acompte)
    ensures var (s', rep) := EncaisserCredit(s, m, id, brut, cle, t);
      && rep.Ok? && (rep.valeur.rejeu <==> ClePrise(s.ecritures, cle)) && (s' == s <==> ClePrise(s.ecritures, cle))
      && |s'.credits| == |s.credits|
      && s'.credits[id].acompte == s.credits[id].acompte + if ClePrise(s.ecritures, cle) then 0.0 else Arrondir(brut)
  {
    var s' := EncaisserCredit(s, m, id, brut, cle, t).0;
    if !ClePrise(s.ecritures, cle) { assert |s'.ecritures| == |s.ecritures| + 1; }
  }

  /** A sale recorded under the text of a settlement key, by any merchant: the settlement of that credit then succeeds, and is lost. */
  lemma VenteAvaleUnReglement(m: Marchand, autre: Marchand, t: int)
    ensures var vente := DemandeVente(Some("credit-reglement-0"), Nombre(100.0), [], "", 0.0, None);
      var s := Executer(VIDE, [RCredit(m, DemandeCredit("Awa", Nombre(5000.0), Absente, true, None), t), RVente(autre, vente, t)]);
      var r := RPayer(m, 0, None, t);
      && |s.credits| == 1 && s.credits[0] == Credit(m, "Awa", 5000.0, 0.0, false)
      && PaiementValable(s, r) && MarquerPaye(s, m, 0, None, t).1 == Ok(Some(Encaissement(true, AcompteCredit, 5000.0)))
      && Etape(s, r) == s
  {
    var vente := DemandeVente(Some("credit-reglement-0"), Nombre(100.0), [], "", 0.0, None);
    var a, b := RCredit(m, DemandeCredit("Awa", Nombre(5000.0), Absente, true, None), t), RVente(autre, vente, t);
    PetitesRuns(VIDE, a, b, b);
    CreditLois.CreerEtSolder(VIDE, m, 5000.0, 0, t);
    VenteSansPanier(PoserCredit(VIDE, m, "Awa", 5000.0), autre, "credit-reglement-0", t);
    var s := Executer(VIDE, [a, b]);
    CreditLois.FrancsEntiersHonnetes(5000);
    assert (5000.0 + 0.5).Floor == 5000 && (0.0 + 0.5).Floor == 0;
    assert s.ecritures[0].cle == Some("credit-reglement-0");
    CleParDefaut();
    PaiementAvale(s, RPayer(m, 0, None, t));
  }

  lemma CleParDefaut()
    ensures CleReglement(None, 0) == "credit-reglement-0"
  {
  }

  lemma VenteSansPanier(s: Etat, m: Marchand, cle: string, t: int)
    requires s.ecritures == [] && s.sessions == map[]
    ensures var s' := EnregistrerVente(s, m, DemandeVente(Some(cle), Nombre(100.0), [], "", 0.0, None), t).0;
      && s' == s.(ecritures := [Ecriture(m, Vente, 100.0, Validee, t, Some(cle))], sessions := s'.sessions)
      && s'.sessions == map[(m, Jour(t)) := SessionNeuve(0.0, None)]
  {
  }

  /**
   A valid sale is recorded, answered as already recorded, or refused: exactly by who holds its key — nobody,
   one of the merchant's own lines of any kind, or another merchant's.
   */
  lemma VenteEtCle(s: Etat, m: Marchand, d: DemandeVente, t: int)
    requires d.montant.Nombre? && d.montant.n > 0.0 && !JourFerme(s, (m, Jour(t)))
    ensures var (s', rep) := EnregistrerVente(s, m, d, t);
      && (rep.Ok? && s' == s <==> CleDejaMienne(s, m, d.cle))
      && (rep.Refusee? <==> CleDejaPrise(s, d.cle) && !CleDejaMienne(s, m, d.cle))
      && (|s'.ecritures| == |s.ecritures| + 1 <==> !CleDejaPrise(s, d.cle))
      && (rep.Refusee? ==> s' == s.(sessions := s'.sessions) && (s' != s <==> (m, Jour(t)) !in s.sessions))
  {
    if CleDejaPrise(s, d.cle) && !CleDejaMienne(s, m, d.cle) { CleDAutrui(s, m, d, t); }
    if ConstatLois.VenteAcceptee(s, m, d, t) {
      var e := Ecriture(m, Vente, d.montant.n, Validee, InstantDe(d.date, t), d.cle);
      ConstatLois.LignesGardentEcritures(AssurerSession(s, (m, Jour(t))).(ecritures := s.ecritures + [e]), m, |s.ecritures|, LignesVendues(d));
    }
  }

  /** A key recorded by another merchant is refused; the only trace left is the day the route opened. */
  lemma CleDAutrui(s: Etat, m: Marchand, d: DemandeVente, t: int)
    requires d.cle.Some? && ClePrise(s.ecritures, d.cle.value) && !CleAMoi(s.ecritures, m, d.cle.value)
    ensures var (s', rep) := EnregistrerVente(s, m, d, t);
      rep.Refusee? && s' == s.(sessions := s'.sessions)
      && (s' != s <==> d.montant.Nombre? && d.montant.n > 0.0 && (m, Jour(t)) !in s.sessions)
  {
    if d.montant.Nombre? && d.montant.n > 0.0 && (m, Jour(t)) !in s.sessions {
      assert (m, Jour(t)) in EnregistrerVente(s, m, d, t).0.sessions;
    }
  }
}
