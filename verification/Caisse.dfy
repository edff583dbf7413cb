/**
 The till's routes as functions of the tables: caisse-rest.controller.ts,
 journee-ouverte.ts, encaisser-credit.ts, credits.controller.ts, the merchant's side of
 stocks-rest.controller.ts, and the administrator's status change of
 transactions-rest.controller.ts.
 A route answers with the new tables and its reply; a refusal after a ROLLBACK
 returns the tables as they were.
 */
module Caisse {
  import opened Commun
  import opened Tables
  import opened Sommes
  import opened Stock

  // ── The day session ─────────────────────────────────────────────────────

  predicate JourFerme(s: Etat, cle: CleSession) {
    cle in s.sessions && !s.sessions[cle].ouvert
  }

  function SessionNeuve(fond: real, declareLe: Option<int>): Session {
    Session(fond, declareLe, true, None, 0.0, None, None)
  }

  /** INSERT … ON CONFLICT DO NOTHING: opens a missing day with an undeclared float of 0. */
  function AssurerSession(s: Etat, cle: CleSession): Etat {
    if cle in s.sessions then s else s.(sessions := s.sessions[cle := SessionNeuve(0.0, None)])
  }

  function Journaliser(s: Etat, cle: CleSession, ancien: Option<real>, nouveau: real, origine: Origine): Etat {
    s.(journal := s.journal + [LigneFond(cle, ancien, nouveau, origine)])
  }

  /** POST session/ouvrir. `fond` is None when the amount is not a finite number. */
  function Ouvrir(s: Etat, m: Marchand, fond: Option<real>, maintenant: int): (Etat, Reponse<()>) {
    var cle := (m, Jour(maintenant));
    if fond.None? || fond.value < 0.0 then (s, Refusee(Invalide))
    else if cle !in s.sessions then
      (Journaliser(s.(sessions := s.sessions[cle := SessionNeuve(fond.value, Some(maintenant))]),
                   cle, None, fond.value, Declaration),
       Ok(()))
    else
      var x := s.sessions[cle];
      if x.declareLe.None? then
        (Journaliser(s.(sessions := s.sessions[cle := x.(fond := fond.value, declareLe := Some(maintenant), ouvert := true, fermeLe := None)]),
                     cle, Some(x.fond), fond.value, Declaration),
         Ok(()))
      else if !x.ouvert then (s.(sessions := s.sessions[cle := x.(ouvert := true, fermeLe := None)]), Ok(()))
      else (s, Ok(()))
  }

  /** PATCH session/fond. */
  function CorrigerFond(s: Etat, m: Marchand, fond: Option<real>, maintenant: int): (Etat, Reponse<()>) {
    var cle := (m, Jour(maintenant));
    if fond.None? || fond.value < 0.0 then (s, Refusee(Invalide))
    else if cle !in s.sessions then
      (Journaliser(s.(sessions := s.sessions[cle := SessionNeuve(fond.value, Some(maintenant))]),
                   cle, None, fond.value, Declaration),
       Ok(()))
    else
      var x := s.sessions[cle];
      var declare := if x.declareLe.Some? then x.declareLe else Some(maintenant);
      (Journaliser(s.(sessions := s.sessions[cle := x.(fond := fond.value, declareLe := declare)]),
                   cle, Some(x.fond), fond.value, if x.declareLe.Some? then Correction else Declaration),
       Ok(()))
  }

  predicate Compte(e: Ecriture, m: Marchand, jour: int) {
    e.marchand == m && e.statut != Annulee && Jour(e.creeLe) == jour
  }

  function Ventes(m: Marchand, jour: int): Ecriture -> real {
    (e: Ecriture) => if Compte(e, m, jour) && e.nature == Vente then e.montant else 0.0
  }

  function Encaissements(m: Marchand, jour: int): Ecriture -> real {
    (e: Ecriture) => if Compte(e, m, jour) && (e.nature == AcompteCredit || e.nature == ReglementCredit) then e.montant else 0.0
  }

  function Depenses(m: Marchand, jour: int): Ecriture -> real {
    (e: Ecriture) => if Compte(e, m, jour) && e.nature == Depense then e.montant else 0.0
  }

  /** What the till should hold: declared float, plus sales and credit payments, minus expenses. */
  function CaisseTheorique(es: seq<Ecriture>, m: Marchand, fond: real, jour: int): real {
    fond + Somme(Ventes(m, jour), es) + Somme(Encaissements(m, jour), es) - Somme(Depenses(m, jour), es)
  }

  /** POST session/fermer. */
  function Fermer(s: Etat, m: Marchand, comptage: Option<real>, maintenant: int): (Etat, Reponse<real>) {
    var cle := (m, Jour(maintenant));
    if comptage.None? || comptage.value < 0.0 then (s, Refusee(Invalide))
    else if cle !in s.sessions then (s, Refusee(Introuvable))
    else
      var x := s.sessions[cle];
      if !x.ouvert && x.fermeLe.Some? then (s, Refusee(DejaFermee))
      else
        var theorique := CaisseTheorique(s.ecritures, m, x.fond, cle.1);
        var ecart := comptage.value - theorique;
        (s.(sessions := s.sessions[cle := x.(ouvert := false, fermeLe := Some(maintenant), fondFinal := comptage.value,
                                             theorique := Some(theorique), ecart := Some(ecart))]),
         Ok(ecart))
  }

  // ── Sales and expenses ──────────────────────────────────────────────────

  /** An amount in a request body. */
  datatype Saisie = Absente | Illisible | Nombre(n: real)

  predicate CleDejaMienne(s: Etat, m: Marchand, cle: Option<string>) {
    cle.Some? && CleAMoi(s.ecritures, m, cle.value)
  }

  predicate CleDejaPrise(s: Etat, cle: Option<string>) {
    cle.Some? && ClePrise(s.ecritures, cle.value)
  }

  datatype DemandeVente = DemandeVente(cle: Option<string>, montant: Saisie, lignes: seq<Ligne>, libelle: string, quantite: real, date: Option<int>)

  /** The lines whose stock moves: the basket, or one line by name for a sale without a basket. */
  function LignesVendues(d: DemandeVente): seq<Ligne> {
    if d.lignes != [] then d.lignes
    else if d.libelle != "" then [Ligne(d.libelle, if d.quantite == 0.0 then 1.0 else d.quantite, None)]
    else []
  }

  /** POST caisse/vente. The reply is the id of the sale, or None when the key was already recorded. */
  function EnregistrerVente(s: Etat, m: Marchand, d: DemandeVente, maintenant: int): (Etat, Reponse<Option<nat>>) {
    var cle := (m, Jour(maintenant));
    if CleDejaMienne(s, m, d.cle) then (s, Ok(None))
    else if !d.montant.Nombre? || d.montant.n <= 0.0 then (s, Refusee(Invalide))
    else if JourFerme(s, cle) then (s, Refusee(JourneeFermee))
    else
      var ouverte := AssurerSession(s, cle);
      if CleDejaPrise(s, d.cle) then (ouverte, Refusee(ErreurBase))
      else
        var tx := |s.ecritures|;
        var ecrite := ouverte.(ecritures := s.ecritures +
                                            [Ecriture(m, Vente, d.montant.n, Validee, InstantDe(d.date, maintenant), d.cle)]);
        (AppliquerLignes(ecrite, m, tx, LignesVendues(d)), Ok(Some(tx)))
  }

  datatype DemandeDepense = DemandeDepense(cle: Option<string>, montant: Saisie, date: Option<int>)

  /** POST caisse/depense. An unreadable amount passes the guard and fails in the database. */
  function EnregistrerDepense(s: Etat, m: Marchand, d: DemandeDepense, maintenant: int): (Etat, Reponse<Option<nat>>) {
    var cle := (m, Jour(maintenant));
    if CleDejaMienne(s, m, d.cle) then (s, Ok(None))
    else if d.montant.Absente? || (d.montant.Nombre? && d.montant.n <= 0.0) then (s, Refusee(Invalide))
    else if JourFerme(s, cle) then (s, Refusee(JourneeFermee))
    else
      var ouverte := AssurerSession(s, cle);
      if d.montant.Illisible? || CleDejaPrise(s, d.cle) then (ouverte, Refusee(ErreurBase))
      else
        (ouverte.(ecritures := s.ecritures +
                               [Ecriture(m, Depense, d.montant.n, Validee, InstantDe(d.date, maintenant), d.cle)]),
         Ok(Some(|s.ecritures|)))
  }

  /** POST caisse/transactions: no key, no closed-day guard, sales refused. */
  function CreerEcriture(s: Etat, m: Marchand, nature: Nature, montant: real, maintenant: int): (Etat, Reponse<nat>) {
    if montant <= 0.0 || nature !in {Depense, Remboursement, Ajustement} then (s, Refusee(Invalide))
    else (s.(ecritures := s.ecritures + [Ecriture(m, nature, montant, Validee, maintenant, None)]), Ok(|s.ecritures|))
  }

  /** PATCH caisse/transactions/:id/annuler. */
  function AnnulerVente(s: Etat, m: Marchand, id: nat, maintenant: int): (Etat, Reponse<()>) {
    if id >= |s.ecritures| || s.ecritures[id].marchand != m then (s, Refusee(Introuvable))
    else
      var e := s.ecritures[id];
      if e.nature != Vente then (s, Refusee(Invalide))
      else if e.statut != Validee || Jour(e.creeLe) != Jour(maintenant) then (s, Refusee(NonAnnulable))
      else if JourFerme(s, (m, Jour(maintenant))) then (s, Refusee(JourneeFermee))
      else (RestituerStock(s.(ecritures := s.ecritures[id := e.(statut := Annulee)]), id), Ok(()))
  }

  /** PATCH transactions/:id, the administrator's route: any status may follow any other. */
  function ChangerStatut(s: Etat, id: nat, statut: Statut, motifValable: bool): (Etat, Reponse<()>) {
    if statut in {Gelee, Annulee, Litige} && !motifValable then (s, Refusee(Invalide))
    else if id >= |s.ecritures| then (s, Refusee(Introuvable))
    else
      var e := s.ecritures[id];
      var s1 := s.(ecritures := s.ecritures[id := e.(statut := statut)]);
      (if statut == Annulee && e.statut != Annulee then RestituerStock(s1, id) else s1, Ok(()))
  }

  // ── Products ────────────────────────────────────────────────────────────

  /** POST caisse/produits: a name of at least two characters and a unit. */
  function CreerProduit(s: Etat, m: Marchand, nom: string, stock: Option<real>, unite: string): (Etat, Reponse<nat>) {
    if |Rogner(nom)| < 2 || Rogner(unite) == "" then (s, Refusee(Invalide))
    else (s.(produits := s.produits + [Some(Produit(m, Rogner(nom), stock, Some(Rogner(unite)), true))]), Ok(|s.produits|))
  }

  /** The columns a body names, as read; `autre` says that it names a column the model does not keep. */
  datatype Colonnes = Colonnes(nom: Option<string>, stock: Option<real>, unite: Option<Option<string>>, autre: bool)

  /** PUT caisse/produits/:id: only the columns the body names are written; a blank name is not one. */
  function ModifierProduit(s: Etat, m: Marchand, id: nat, c: Colonnes): (Etat, Reponse<()>) {
    var renomme := c.nom.Some? && Rogner(c.nom.value) != "";
    if !renomme && c.stock.None? && c.unite.None? && !c.autre then (s, Refusee(Invalide))
    else if !EstA(s.produits, id, m) then (s, Refusee(Introuvable))
    else
      var p := s.produits[id].value;
      (s.(produits := s.produits[id := Some(p.(nom := if renomme then c.nom.value else p.nom,
                                               stock := if c.stock.Some? then c.stock else p.stock,
                                               unite := if c.unite.Some? then c.unite.value else p.unite))]),
       Ok(()))
  }

  /** DELETE caisse/produits/:id keeps the row, and answers with success even when it touches none. */
  function SupprimerProduit(s: Etat, m: Marchand, id: nat): Etat {
    if !EstA(s.produits, id, m) then s
    else s.(produits := s.produits[id := Some(s.produits[id].value.(actif := false))])
  }

  // ── The other routes that write products: stocks-rest.controller.ts, for a merchant ──

  /** POST stocks: no guard; a quantity that is not a number is read as 0, a missing name fails in the database. */
  function PoserStock(s: Etat, m: Marchand, nom: Option<string>, quantite: real, unite: Option<string>): (Etat, Reponse<nat>) {
    if nom.None? then (s, Refusee(ErreurBase))
    else
      var u := if unite.Some? then unite.value else "unite";
      (s.(produits := s.produits + [Some(Produit(m, nom.value, Some(quantite), Some(u), true))]), Ok(|s.produits|))
  }

  /** PATCH stocks/:id writes what the body gives; it answers with success even when it touches no row. */
  function EcrireStock(s: Etat, m: Marchand, id: nat, nom: Option<string>, quantite: Option<real>, unite: Option<string>): Etat {
    if !EstA(s.produits, id, m) then s
    else
      var p := s.produits[id].value;
      s.(produits := s.produits[id := Some(p.(nom := if nom.Some? then nom.value else p.nom,
                                              stock := if quantite.Some? then quantite else p.stock,
                                              unite := if unite.Some? then unite else p.unite))])
  }

  /** With a key, the writes happen once per key; the reply says whether the key was known already. */
  function MajStock(
    s: Etat, m: Marchand, id: nat, nom: Option<string>, quantite: Option<real>, unite: Option<string>, cle: Option<string>): (Etat, bool)
  {
    if cle.None? then (EcrireStock(s, m, id, nom, quantite, unite), false)
    else if cle.value in s.clesStock then (s, true)
    else (EcrireStock(s.(clesStock := s.clesStock + {cle.value}), m, id, nom, quantite, unite), false)
  }

  /** DELETE stocks/:id removes the row. */
  function EffacerProduit(s: Etat, m: Marchand, id: nat): Etat {
    if !EstA(s.produits, id, m) then s else s.(produits := s.produits[id := None])
  }

  // ── Credits ─────────────────────────────────────────────────────────────

  /** Math.round: to the nearest integer, halves upwards. */
  function Arrondir(x: real): real { (x + 0.5).Floor as real }

  datatype Encaissement = Encaissement(rejeu: bool, nature: Nature, resteApres: real)

  /** encaisserCredit, the only primitive that takes money on a credit. */
  function EncaisserCredit(s: Etat, m: Marchand, id: nat, brut: real, cle: string, maintenant: int): (Etat, Reponse<Encaissement>) {
    var montant := Arrondir(brut);
    if montant <= 0.0 || cle == "" then (s, Refusee(Invalide))
    else if id >= |s.credits| || s.credits[id].marchand != m then (s, Refusee(Introuvable))
    else
      var c := s.credits[id];
      if ClePrise(s.ecritures, cle) then
        var reste := Arrondir(Max(0.0, c.total - c.acompte));
        (s, Ok(Encaissement(true, NaturePaiement(reste), reste)))
      else
        var resteAvant := Max(0.0, Arrondir(c.total) - Arrondir(c.acompte));
        if resteAvant == 0.0 then (s, Refusee(DejaSolde))
        else if montant > resteAvant then (s, Refusee(DepasseLeRestant))
        else
          (EcrirePaiement(s, m, id, montant, resteAvant, cle, maintenant),
           Ok(Encaissement(false, NaturePaiement(resteAvant - montant), resteAvant - montant)))
  }

  /** The outcome decides, not the route: a payment that leaves nothing to pay is a settlement. */
  function NaturePaiement(resteApres: real): Nature { if resteApres == 0.0 then ReglementCredit else AcompteCredit }

  /** The four writes of a payment: the credit, the client's debt, the till line, the audit row. */
  function EcrirePaiement(s: Etat, m: Marchand, id: nat, montant: real, resteAvant: real, cle: string, maintenant: int): Etat
    requires id < |s.credits|
  {
    var c := s.credits[id];
    var reste := resteAvant - montant;
    s.(credits := s.credits[id := c.(acompte := c.acompte + montant, paye := c.paye || reste == 0.0)],
       clients := BaisserDette(s.clients, (m, c.client), montant),
       ecritures := s.ecritures + [Ecriture(m, NaturePaiement(reste), montant, Validee, maintenant, Some(cle))],
       audits := s.audits + [Audit(m, id, montant, resteAvant, reste, NaturePaiement(reste))])
  }

  function BaisserDette(clients: map<CleClient, Client>, cle: CleClient, montant: real): map<CleClient, Client> {
    if cle !in clients then clients
    else clients[cle := clients[cle].(montantDu := Max(0.0, clients[cle].montantDu - montant))]
  }

  /** INSERT INTO clients … ON CONFLICT DO UPDATE. */
  function HausserDette(clients: map<CleClient, Client>, cle: CleClient, montant: real): map<CleClient, Client> {
    if cle !in clients then clients[cle := Client(1, montant)]
    else clients[cle := Client(clients[cle].nbCredits + 1, clients[cle].montantDu + montant)]
  }

  /** A uuid as text; the model only needs a text for every id. */
  function TexteId(id: nat): string {
    if id < 10 then ["0123456789"[id]] else TexteId(id / 10) + ["0123456789"[id % 10]]
  }

  function CleCreation(cle: Option<string>, id: nat): string {
    "credit-creation-" + if cle.Some? then cle.value else TexteId(id)
  }

  function CleReglement(cle: Option<string>, id: nat): string {
    "credit-reglement-" + if cle.Some? then cle.value else TexteId(id)
  }

  function CleAcompte(cle: string): string { "credit-acompte-" + cle }

  datatype DemandeCredit = DemandeCredit(
    client: string, total: Saisie, acompte: Saisie, echeance: bool, cle: Option<string>)

  /** The first payment: none given is 0. One that is no number compares with nothing, and is not paid. */
  function Verse(d: DemandeCredit): real { if d.acompte.Nombre? then d.acompte.n else 0.0 }

  /** The credit and its client's whole debt, before any first payment. */
  function PoserCredit(s: Etat, m: Marchand, client: string, total: real): Etat {
    s.(clients := HausserDette(s.clients, (m, client), total),
       credits := s.credits + [Credit(m, client, total, 0.0, false)])
  }

  /** POST caisse/credits. */
  function CreerCredit(s: Etat, m: Marchand, d: DemandeCredit, maintenant: int): (Etat, Reponse<nat>) {
    if d.client == "" || !d.total.Nombre? || !d.echeance then (s, Refusee(Invalide))
    else if !d.acompte.Illisible? && Verse(d) > d.total.n then (s, Refusee(Invalide))
    else
      var id := |s.credits|;
      var pose := PoserCredit(s, m, d.client, d.total.n);
      if Verse(d) <= 0.0 then (pose, Ok(id))
      else if JourFerme(s, (m, Jour(maintenant))) then (s, Refusee(JourneeFermee))
      else
        var r := EncaisserCredit(pose, m, id, Verse(d), CleCreation(d.cle, id), maintenant);
        if r.1.Refusee? then (s, Refusee(r.1.refus)) else (r.0, Ok(id))
  }

  /** PATCH caisse/credits/:id/payer. None: it was settled already. */
  function MarquerPaye(s: Etat, m: Marchand, id: nat, cle: Option<string>, maintenant: int): (Etat, Reponse<Option<Encaissement>>) {
    if id >= |s.credits| || s.credits[id].marchand != m then (s, Refusee(Introuvable))
    else
      var reste := Arrondir(s.credits[id].total - s.credits[id].acompte);
      if reste <= 0.0 then (s, Ok(None))
      else if JourFerme(s, (m, Jour(maintenant))) then (s, Refusee(JourneeFermee))
      else
        var r := EncaisserCredit(s, m, id, reste, CleReglement(cle, id), maintenant);
        if r.1.Refusee? then (s, Refusee(r.1.refus)) else (r.0, Ok(Some(r.1.valeur)))
  }

  /** PATCH caisse/credits/:id/acompte. */
  function AjouterAcompte(
    s: Etat, m: Marchand, id: nat, montant: Option<real>, cle: Option<string>, maintenant: int): (Etat, Reponse<Encaissement>)
  {
    if montant.None? || montant.value <= 0.0 || cle.None? then (s, Refusee(Invalide))
    else if JourFerme(s, (m, Jour(maintenant))) then (s, Refusee(JourneeFermee))
    else EncaisserCredit(s, m, id, montant.value, CleAcompte(cle.value), maintenant)
  }

  // ── Requests and runs ───────────────────────────────────────────────────

  /** A request, with the instant at which the server handles it. */
  datatype Requete =
    | RVente(m: Marchand, vente: DemandeVente, t: int)
    | RDepense(m: Marchand, depense: DemandeDepense, t: int)
    | REcriture(m: Marchand, nature: Nature, montant: real, t: int)
    | RAnnuler(m: Marchand, id: nat, t: int)
    | RStatut(id: nat, statut: Statut, motifValable: bool)
    | ROuvrir(m: Marchand, fond: Option<real>, t: int)
    | RFond(m: Marchand, fond: Option<real>, t: int)
    | RFermer(m: Marchand, comptage: Option<real>, t: int)
    | RCredit(m: Marchand, credit: DemandeCredit, t: int)
    | RPayer(m: Marchand, id: nat, cle: Option<string>, t: int)
    | RAcompte(m: Marchand, id: nat, verse: Option<real>, cle: Option<string>, t: int)
    | RNouveauProduit(m: Marchand, nom: string, stock: Option<real>, unite: string)
    | RProduit(m: Marchand, id: nat, colonnes: Colonnes)
    | RSupprimer(m: Marchand, id: nat)
    | RPoserStock(m: Marchand, nomBrut: Option<string>, quantite: real, uniteBrute: Option<string>)
    | RStock(m: Marchand, id: nat, nouveauNom: Option<string>, compte: Option<real>, nouvelleUnite: Option<string>, cle: Option<string>)
    | REffacer(m: Marchand, id: nat)

  /** The requests that only write products (and the keys of their updates). */
  predicate SurProduits(r: Requete) {
    r.RNouveauProduit? || r.RProduit? || r.RSupprimer? || r.RPoserStock? || r.RStock? || r.REffacer?
  }

  function Etape(s: Etat, r: Requete): Etat {
    match r
    case RVente(m, d, t) => EnregistrerVente(s, m, d, t).0
    case RDepense(m, d, t) => EnregistrerDepense(s, m, d, t).0
    case REcriture(m, n, x, t) => CreerEcriture(s, m, n, x, t).0
    case RAnnuler(m, id, t) => AnnulerVente(s, m, id, t).0
    case RStatut(id, st, motif) => ChangerStatut(s, id, st, motif).0
    case ROuvrir(m, f, t) => Ouvrir(s, m, f, t).0
    case RFond(m, f, t) => CorrigerFond(s, m, f, t).0
    case RFermer(m, c, t) => Fermer(s, m, c, t).0
    case RCredit(m, d, t) => CreerCredit(s, m, d, t).0
    case RPayer(m, id, cle, t) => MarquerPaye(s, m, id, cle, t).0
    case RAcompte(m, id, x, cle, t) => AjouterAcompte(s, m, id, x, cle, t).0
    case RNouveauProduit(m, nom, st, u) => CreerProduit(s, m, nom, st, u).0
    case RProduit(m, id, c) => ModifierProduit(s, m, id, c).0
    case RSupprimer(m, id) => SupprimerProduit(s, m, id)
    case RPoserStock(m, nom, q, u) => PoserStock(s, m, nom, q, u).0
    case RStock(m, id, nom, q, u, cle) => MajStock(s, m, id, nom, q, u, cle).0
    case REffacer(m, id) => EffacerProduit(s, m, id)
  }

  function Executer(s: Etat, rs: seq<Requete>): Etat {
    if rs == [] then s else Etape(Executer(s, rs[..|rs| - 1]), rs[|rs| - 1])
  }

  lemma {:induction false} ExecuterConcat(s: Etat, a: seq<Requete>, b: seq<Requete>)
    ensures Executer(s, a + b) == Executer(Executer(s, a), b)
  {
    if b == [] {
      assert a + b == a;
    } else {
      assert (a + b)[..|a + b| - 1] == a + b[..|b| - 1];
      ExecuterConcat(s, a, b[..|b| - 1]);
    }
  }

  /** Short runs, step by step. */
  lemma PetitesRuns(s: Etat, a: Requete, b: Requete, c: Requete)
    ensures Executer(s, [a, b]) == Etape(Etape(s, a), b)
    ensures Executer(s, [a, b, c]) == Etape(Etape(Etape(s, a), b), c)
  {
    assert [a][..0] == [] && [a, b][..1] == [a] && [a, b, c][..2] == [a, b];
    assert Executer(s, [a]) == Etape(s, a);
  }

  const VIDE := Etat([], [], [], {}, map[], [], [], map[], [])
}
