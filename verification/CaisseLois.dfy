/** The cash of a day: what each request moves in its account, and what a run moves in all. */
module CaisseLois {
  import opened Commun
  import opened Tables
  import opened Caisse
  import opened ConstatLois
  import CreditLois

  /** What one till line is worth to its own day: + in, − out, 0 when cancelled or not counted. */
  function Valeur(e: Ecriture): real {
    if e.statut == Annulee then 0.0
    else match e.nature
      case Vente => e.montant
      case AcompteCredit => e.montant
      case ReglementCredit => e.montant
      case Depense => 0.0 - e.montant
      case _ => 0.0
  }

  lemma EffetEstValeur(e: Ecriture, cle: CleSession)
    ensures Effet(e, cle.0, cle.1) == if JourDe(e) == cle then Valeur(e) else 0.0
  {
  }

  /** The payment a credit request writes, if it writes one. */
  function Paiement(s: Etat, r: Requete): real {
    match r
    case RCredit(m, d, t) =>
      if CreerCredit(s, m, d, t).1.Ok? && Verse(d) > 0.0 && !ClePrise(s.ecritures, CleCreation(d.cle, |s.credits|))
      then Arrondir(Verse(d)) else 0.0
    case RPayer(m, id, cle, t) =>
      var rep := MarquerPaye(s, m, id, cle, t).1;
      if rep.Ok? && rep.valeur.Some? && !rep.valeur.value.rejeu && id < |s.credits| then Arrondir(s.credits[id].total - s.credits[id].acompte)
      else 0.0
    case RAcompte(m, id, x, cle, t) =>
      var rep := AjouterAcompte(s, m, id, x, cle, t).1;
      if rep.Ok? && !rep.valeur.rejeu && x.Some? then Arrondir(x.value) else 0.0
    case _ => 0.0
  }

  /** What a request moves in the account of day `cle`: nothing, except on the day it books in. */
  function Flux(s: Etat, r: Requete, cle: CleSession): real {
    match r
    case RVente(m, d, t) => if VenteAcceptee(s, m, d, t) && cle == (m, Jour(InstantDe(d.date, t))) then d.montant.n else 0.0
    case RDepense(m, d, t) => if DepenseAcceptee(s, m, d, t) && cle == (m, Jour(InstantDe(d.date, t))) then 0.0 - d.montant.n else 0.0
    case REcriture(m, nature, x, t) => if x > 0.0 && nature == Depense && cle == (m, Jour(t)) then 0.0 - x else 0.0
    case RAnnuler(m, id, t) =>
      if AnnulerVente(s, m, id, t).1.Ok? && id < |s.ecritures| && cle == (m, Jour(t)) then 0.0 - s.ecritures[id].montant else 0.0
    case RStatut(id, st, motif) =>
      if ChangerStatut(s, id, st, motif).1.Ok? && id < |s.ecritures| && cle == JourDe(s.ecritures[id])
      then Valeur(s.ecritures[id].(statut := st)) - Valeur(s.ecritures[id]) else 0.0
    case RCredit(m, _, t) => if cle == (m, Jour(t)) then Paiement(s, r) else 0.0
    case RPayer(m, _, _, t) => if cle == (m, Jour(t)) then Paiement(s, r) else 0.0
    case RAcompte(m, _, _, _, t) => if cle == (m, Jour(t)) then Paiement(s, r) else 0.0
    case _ => 0.0
  }

  /** The account of a day, whatever its float. */
  function Solde(es: seq<Ecriture>, cle: CleSession): real { CaisseTheorique(es, cle.0, 0.0, cle.1) }

  lemma VenteFlux(s: Etat, m: Marchand, d: DemandeVente, t: int, cle: CleSession)
    ensures Solde(EnregistrerVente(s, m, d, t).0.ecritures, cle) == Solde(s.ecritures, cle) + Flux(s, RVente(m, d, t), cle)
  {
    if VenteAcceptee(s, m, d, t) {
      var e := Ecriture(m, Vente, d.montant.n, Validee, InstantDe(d.date, t), d.cle);
      LignesGardentEcritures(AssurerSession(s, (m, Jour(t))).(ecritures := s.ecritures + [e]), m, |s.ecritures|, LignesVendues(d));
      TheoriqueAjout(s.ecritures, e, cle.0, 0.0, cle.1);
      EffetEstValeur(e, cle);
    }
  }

  lemma DepenseFlux(s: Etat, m: Marchand, d: DemandeDepense, t: int, cle: CleSession)
    ensures Solde(EnregistrerDepense(s, m, d, t).0.ecritures, cle) == Solde(s.ecritures, cle) + Flux(s, RDepense(m, d, t), cle)
  {
    if DepenseAcceptee(s, m, d, t) {
      var e := Ecriture(m, Depense, d.montant.n, Validee, InstantDe(d.date, t), d.cle);
      TheoriqueAjout(s.ecritures, e, cle.0, 0.0, cle.1);
      EffetEstValeur(e, cle);
    }
  }

  lemma EcritureFlux(s: Etat, m: Marchand, nature: Nature, x: real, t: int, cle: CleSession)
    ensures Solde(CreerEcriture(s, m, nature, x, t).0.ecritures, cle) == Solde(s.ecritures, cle) + Flux(s, REcriture(m, nature, x, t), cle)
  {
    var e := Ecriture(m, nature, x, Validee, t, None);
    TheoriqueAjout(s.ecritures, e, cle.0, 0.0, cle.1);
    EffetEstValeur(e, cle);
  }

  lemma StatutFlux(s: Etat, id: nat, statut: Statut, cle: CleSession)
    requires id < |s.ecritures|
    ensures var e := s.ecritures[id];
      Solde(s.ecritures[id := e.(statut := statut)], cle)
      == Solde(s.ecritures, cle) + if cle == JourDe(e) then Valeur(e.(statut := statut)) - Valeur(e) else 0.0
  {
    var e := s.ecritures[id];
    TheoriqueMaj(s.ecritures, id, e.(statut := statut), cle.0, 0.0, cle.1);
    EffetEstValeur(e, cle);
    EffetEstValeur(e.(statut := statut), cle);
  }

  lemma AnnulerFlux(s: Etat, m: Marchand, id: nat, t: int, cle: CleSession)
    ensures Solde(AnnulerVente(s, m, id, t).0.ecritures, cle) == Solde(s.ecritures, cle) + Flux(s, RAnnuler(m, id, t), cle)
  {
    if id < |s.ecritures| { StatutFlux(s, id, Annulee, cle); }
  }

  lemma ChangerFlux(s: Etat, id: nat, st: Statut, motif: bool, cle: CleSession)
    ensures Solde(ChangerStatut(s, id, st, motif).0.ecritures, cle) == Solde(s.ecritures, cle) + Flux(s, RStatut(id, st, motif), cle)
  {
    if id < |s.ecritures| { StatutFlux(s, id, st, cle); }
  }

  /** The primitive books what it accepted on the day it runs; a replay or a refusal books nothing. */
  lemma EncaisserFlux(s: Etat, m: Marchand, id: nat, brut: real, k: string, t: int, cle: CleSession)
    ensures var (s', rep) := EncaisserCredit(s, m, id, brut, k, t);
      Solde(s'.ecritures, cle) == Solde(s.ecritures, cle) + if rep.Ok? && !rep.valeur.rejeu && cle == (m, Jour(t)) then Arrondir(brut) else 0.0
  {
    var s' := EncaisserCredit(s, m, id, brut, k, t).0;
    if |s'.ecritures| > |s.ecritures| {
      var e := s'.ecritures[|s.ecritures|];
      TheoriqueAjout(s.ecritures, e, cle.0, 0.0, cle.1);
      EffetEstValeur(e, cle);
    }
  }

  lemma CreerFlux(s: Etat, m: Marchand, d: DemandeCredit, t: int, cle: CleSession)
    ensures Solde(CreerCredit(s, m, d, t).0.ecritures, cle) == Solde(s.ecritures, cle) + Flux(s, RCredit(m, d, t), cle)
  {
    if d.total.Nombre? {
      EncaisserFlux(PoserCredit(s, m, d.client, d.total.n), m, |s.credits|, Verse(d), CleCreation(d.cle, |s.credits|), t, cle);
    }
  }

  /** Settling is the primitive on what is left to pay, or nothing. */
  lemma PayerEnDetail(s: Etat, m: Marchand, id: nat, k: Option<string>, t: int)
    ensures var (s', rep) := MarquerPaye(s, m, id, k, t);
      if id < |s.credits| && rep.Ok? && rep.valeur.Some? then
        EncaisserCredit(s, m, id, Arrondir(s.credits[id].total - s.credits[id].acompte), CleReglement(k, id), t) == (s', Ok(rep.valeur.value))
      else s' == s
  {
  }

  lemma PayerFlux(s: Etat, m: Marchand, id: nat, k: Option<string>, t: int, cle: CleSession)
    ensures Solde(MarquerPaye(s, m, id, k, t).0.ecritures, cle) == Solde(s.ecritures, cle) + Flux(s, RPayer(m, id, k, t), cle)
  {
    PayerEnDetail(s, m, id, k, t);
    if id < |s.credits| {
      var reste := Arrondir(s.credits[id].total - s.credits[id].acompte);
      CreditLois.ArrondiEntier(s.credits[id].total - s.credits[id].acompte);
      EncaisserFlux(s, m, id, reste, CleReglement(k, id), t, cle);
    }
  }

  lemma AcompteFlux(s: Etat, m: Marchand, id: nat, x: Option<real>, k: Option<string>, t: int, cle: CleSession)
    ensures Solde(AjouterAcompte(s, m, id, x, k, t).0.ecritures, cle) == Solde(s.ecritures, cle) + Flux(s, RAcompte(m, id, x, k, t), cle)
  {
    if x.Some? && k.Some? { EncaisserFlux(s, m, id, x.value, CleAcompte(k.value), t, cle); }
  }

  /** Every request moves every day's account by exactly its flux. */
  lemma EtapeFlux(s: Etat, r: Requete, cle: CleSession)
    ensures Solde(Etape(s, r).ecritures, cle) == Solde(s.ecritures, cle) + Flux(s, r, cle)
  {
    match r
    case RVente(m, d, t) => VenteFlux(s, m, d, t, cle);
    case RDepense(m, d, t) => DepenseFlux(s, m, d, t, cle);
    case REcriture(m, n, x, t) => EcritureFlux(s, m, n, x, t, cle);
    case RAnnuler(m, id, t) => AnnulerFlux(s, m, id, t, cle);
    case RStatut(id, st, motif) => ChangerFlux(s, id, st, motif, cle);
    case RCredit(m, d, t) => CreerFlux(s, m, d, t, cle);
    case RPayer(m, id, k, t) => PayerFlux(s, m, id, k, t, cle);
    case RAcompte(m, id, x, k, t) => AcompteFlux(s, m, id, x, k, t, cle);
    case _ => CreditLois.SansEcriture(s, r);
  }

  function FluxTotal(s: Etat, rs: seq<Requete>, cle: CleSession): real {
    if rs == [] then 0.0 else FluxTotal(s, rs[..|rs| - 1], cle) + Flux(Executer(s, rs[..|rs| - 1]), rs[|rs| - 1], cle)
  }

  /** Over every run: what a drawer should hold is its float plus all that the run moved in that day's account. */
  lemma {:induction false} RunFlux(s: Etat, rs: seq<Requete>, cle: CleSession, fond: real)
    ensures CaisseTheorique(Executer(s, rs).ecritures, cle.0, fond, cle.1)
         == CaisseTheorique(s.ecritures, cle.0, fond, cle.1) + FluxTotal(s, rs, cle)
  {
    if rs != [] {
      RunFlux(s, rs[..|rs| - 1], cle, fond);
      EtapeFlux(Executer(s, rs[..|rs| - 1]), rs[|rs| - 1], cle);
    }
  }

  /**
   The evening's gap: closing a day, after any run at all from empty tables, answers with what was
   counted minus the float minus every flow of that day, late or early, in the whole run.
   */
  lemma EcartDuSoir(rs: seq<Requete>, m: Marchand, comptage: real, t: int)
    ensures var s := Executer(VIDE, rs);
      var (s', rep) := Fermer(s, m, Some(comptage), t);
      var cle := (m, Jour(t));
      rep.Ok? ==> cle in s.sessions && JourFerme(s', cle)
                  && rep.valeur == comptage - s.sessions[cle].fond - FluxTotal(VIDE, rs, cle)
                  && s'.sessions[cle].fondFinal == comptage && s'.sessions[cle].ecart == Some(rep.valeur)
  {
    var s, cle := Executer(VIDE, rs), (m, Jour(t));
    if cle in s.sessions { RunFlux(VIDE, rs, cle, s.sessions[cle].fond); }
  }

  // ── A day is sealed ─────────────────────────────────────────────────────

  /** The instant the server handles the request at; an administrator's status change and product requests book nothing. */
  function Instant(r: Requete): Option<int> {
    match r
    case RVente(_, _, t) => Some(t)
    case RDepense(_, _, t) => Some(t)
    case REcriture(_, _, _, t) => Some(t)
    case RAnnuler(_, _, t) => Some(t)
    case ROuvrir(_, _, t) => Some(t)
    case RFond(_, _, t) => Some(t)
    case RFermer(_, _, t) => Some(t)
    case RCredit(_, _, t) => Some(t)
    case RPayer(_, _, _, t) => Some(t)
    case RAcompte(_, _, _, _, t) => Some(t)
    case _ => None
  }

  /** No phone can book in the day any more at that instant: it is over, by more than the fourteen days a claim may go back. */
  predicate Scelle(jour: int, t: int) { jour < Jour(t - ANCIENNETE_MAX_MS) }

  /** On a sealed day nothing books any more, but for an administrator who cancels or reinstates one of its lines. */
  lemma JourScelle(s: Etat, r: Requete, cle: CleSession)
    requires !r.RStatut? && (Instant(r).Some? ==> Scelle(cle.1, Instant(r).value))
    ensures Flux(s, r, cle) == 0.0
  {
    if Instant(r).Some? {
      var t := Instant(r).value;
      JourMonotone(t - ANCIENNETE_MAX_MS, t);
      match r
      case RVente(m, d, _) => JourMonotone(t - ANCIENNETE_MAX_MS, InstantDe(d.date, t));
      case RDepense(m, d, _) => JourMonotone(t - ANCIENNETE_MAX_MS, InstantDe(d.date, t));
      case _ =>
    }
  }

  /** Hence, over every such run, a sealed day's account is final, whatever its float: closed or not, no phone can falsify it. */
  lemma {:induction false} CompteScelle(s: Etat, rs: seq<Requete>, cle: CleSession, fond: real)
    requires forall k :: 0 <= k < |rs| ==> !rs[k].RStatut? && (Instant(rs[k]).Some? ==> Scelle(cle.1, Instant(rs[k]).value))
    ensures CaisseTheorique(Executer(s, rs).ecritures, cle.0, fond, cle.1) == CaisseTheorique(s.ecritures, cle.0, fond, cle.1)
  {
    if rs != [] {
      CompteScelle(s, rs[..|rs| - 1], cle, fond);
      EtapeFlux(Executer(s, rs[..|rs| - 1]), rs[|rs| - 1], cle);
      JourScelle(Executer(s, rs[..|rs| - 1]), rs[|rs| - 1], cle);
    }
  }
}
