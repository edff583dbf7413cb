/**
 Wallets against their journal: admin movements (admin-wallets.service.ts), order payments (commandes-rest.controller.ts),
 transfers from account to account (wallets.service.ts) and contributions paid from the wallet
 (protection-sociale.controller.ts).
 */
module Portefeuilles {
  import opened Commun
  import opened Sommes

  datatype Portefeuille = Portefeuille(solde: real, bloque: real, suspendu: bool)

  datatype Sens = Credite | Debite
  /** A row of wallet_transactions; `commande` is related_entity_id when the row pays an order, `cle` the key of a transfer. */
  datatype Mouvement = Mouvement(user: nat, sens: Sens, montant: real, commande: Option<nat>, cle: Option<string> := None)

  datatype Commande = Commande(acheteur: Option<nat>, vendeur: nat, total: real, keiwa: bool, directe: bool, payee: bool)

  /** A user's wallet is the row at the user's index. */
  datatype Coffre = Coffre(portefeuilles: seq<Portefeuille>, journal: seq<Mouvement>, commandes: seq<Commande>)

  datatype RefusArgent = Interdit | Introuvable | Invalide | Bloque | SoldeInsuffisant | ErreurBase

  const PLAFOND: int := 10_000_000

  function EcrireSolde(ps: seq<Portefeuille>, u: nat, solde: real): seq<Portefeuille>
    requires u < |ps|
  {
    ps[u := ps[u].(solde := solde)]
  }

  // ── Routes ──────────────────────────────────────────────────────────────

  /** `montant` is None when it is not a finite number; `motif` says that author and reason are given. */
  function Crediter(s: Coffre, u: nat, montant: Option<real>, motif: bool): (Coffre, Option<RefusArgent>) {
    if montant.None? || montant.value <= 0.0 || !motif then (s, Some(Invalide))
    else if u >= |s.portefeuilles| then (s, Some(Introuvable))
    else if s.portefeuilles[u].suspendu then (s, Some(Bloque))
    else (s.(portefeuilles := EcrireSolde(s.portefeuilles, u, s.portefeuilles[u].solde + montant.value),
             journal := s.journal + [Mouvement(u, Credite, montant.value, None)]), None)
  }

  function Debiter(s: Coffre, u: nat, montant: Option<real>, motif: bool): (Coffre, Option<RefusArgent>) {
    if montant.None? || montant.value <= 0.0 || !motif then (s, Some(Invalide))
    else if u >= |s.portefeuilles| then (s, Some(Introuvable))
    else if s.portefeuilles[u].suspendu then (s, Some(Bloque))
    else if s.portefeuilles[u].solde - s.portefeuilles[u].bloque < montant.value then (s, Some(SoldeInsuffisant))
    else (s.(portefeuilles := EcrireSolde(s.portefeuilles, u, s.portefeuilles[u].solde - montant.value),
             journal := s.journal + [Mouvement(u, Debite, montant.value, None)]), None)
  }

  function Reinitialiser(s: Coffre, u: nat, confirme: bool, motif: bool): (Coffre, Option<RefusArgent>) {
    if !confirme || !motif then (s, Some(Invalide))
    else if u >= |s.portefeuilles| then (s, Some(Introuvable))
    else
      var p := s.portefeuilles[u];
      (s.(portefeuilles := s.portefeuilles[u := p.(solde := 0.0, bloque := 0.0)],
          journal := if p.solde > 0.0 then s.journal + [Mouvement(u, Debite, p.solde, None)] else s.journal), None)
  }

  function Suspendre(s: Coffre, u: nat, suspendu: bool): Coffre {
    if u >= |s.portefeuilles| then s
    else s.(portefeuilles := s.portefeuilles[u := s.portefeuilles[u].(suspendu := suspendu)])
  }

  /** The wallet movement of an order: both rows are read before either is saved. */
  function Transferer(ps: seq<Portefeuille>, acheteur: nat, vendeur: nat, montant: real): seq<Portefeuille>
    requires acheteur < |ps| && vendeur < |ps|
  {
    EcrireSolde(EcrireSolde(ps, acheteur, ps[acheteur].solde - montant), vendeur, ps[vendeur].solde + montant)
  }

  /** The writes of a keiwa payment. */
  function EcrirePaiement(s: Coffre, id: nat, acheteur: nat): Coffre
    requires id < |s.commandes| && acheteur < |s.portefeuilles| && s.commandes[id].vendeur < |s.portefeuilles|
  {
    var c := s.commandes[id];
    Coffre(Transferer(s.portefeuilles, acheteur, c.vendeur, c.total),
           s.journal + [Mouvement(acheteur, Debite, c.total, Some(id))] + [Mouvement(c.vendeur, Credite, c.total, Some(id))],
           s.commandes[id := c.(payee := true)])
  }

  function Payer(s: Coffre, id: nat, appelant: nat): (Coffre, Option<RefusArgent>) {
    if id >= |s.commandes| then (s, Some(Introuvable))
    else
      var c := s.commandes[id];
      if c.vendeur != appelant then (s, Some(Interdit))
      else if c.payee then (s, None)
      else if !c.keiwa then (s.(commandes := s.commandes[id := c.(payee := true)]), None)
      else if c.directe then (s, Some(Interdit))
      else if c.acheteur.None? || c.total <= 0.0 then (s, Some(Invalide))
      else
        var a, v := c.acheteur.value, c.vendeur;
        if a >= |s.portefeuilles| || v >= |s.portefeuilles| then (s, Some(Introuvable))
        else if s.portefeuilles[a].suspendu || s.portefeuilles[v].suspendu then (s, Some(Bloque))
        else if s.portefeuilles[a].solde < c.total then (s, Some(SoldeInsuffisant))
        else (EcrirePaiement(s, id, a), None)
  }

  /** A row carries the key, for that user and that direction: the unique index ux_wallet_tx_idempotency_key. */
  predicate CleUtilisee(js: seq<Mouvement>, u: nat, sens: Sens, cle: Option<string>) {
    cle.Some? && exists i :: 0 <= i < |js| && js[i].user == u && js[i].sens == sens && js[i].cle == cle
  }

  datatype ReponseTransfert = Fait(dejaTraite: bool, solde: real) | Refuse(refus: RefusArgent)

  function EcrireTransfert(s: Coffre, e: nat, d: nat, montant: real, cle: Option<string>): Coffre
    requires e < |s.portefeuilles| && d < |s.portefeuilles|
  {
    s.(portefeuilles := Transferer(s.portefeuilles, e, d, montant),
       journal := s.journal + [Mouvement(e, Debite, montant, None, cle)] + [Mouvement(d, Credite, montant, None, cle)])
  }

  /** POST wallets/me/transfert, `montant` rounded to the franc; an empty key is none. The key alone says a transfer is a replay. */
  function Envoyer(s: Coffre, e: nat, d: nat, montant: Option<int>, cle: Option<string>): (Coffre, ReponseTransfert) {
    if montant.None? || montant.value <= 0 || e == d || montant.value > PLAFOND then (s, Refuse(Invalide))
    else if CleUtilisee(s.journal, e, Debite, cle) then (s, Fait(true, if e < |s.portefeuilles| then s.portefeuilles[e].solde else 0.0))
    else if e >= |s.portefeuilles| || d >= |s.portefeuilles| then (s, Refuse(Introuvable))
    else
      var x, m := s.portefeuilles[e], montant.value as real;
      if x.suspendu || s.portefeuilles[d].suspendu then (s, Refuse(Bloque))
      else if x.solde - x.bloque < m then (s, Refuse(SoldeInsuffisant))
      else if CleUtilisee(s.journal, d, Credite, cle) then (s, Refuse(ErreurBase))
      else (EcrireTransfert(s, e, d, m, cle), Fait(false, x.solde - m))
  }

  /** POST protection-sociale/cotisations; `valable` says that body and period are; only a keiwa contribution moves a wallet. */
  function Cotiser(s: Coffre, u: nat, montant: Option<real>, valable: bool, keiwa: bool): (Coffre, Option<RefusArgent>) {
    if montant.None? || montant.value <= 0.0 || montant.value > PLAFOND as real || !valable then (s, Some(Invalide))
    else if !keiwa then (s, None)
    else if u >= |s.portefeuilles| then (s, Some(Introuvable))
    else if s.portefeuilles[u].suspendu then (s, Some(Bloque))
    else if s.portefeuilles[u].solde - s.portefeuilles[u].bloque < montant.value then (s, Some(SoldeInsuffisant))
    else (s.(portefeuilles := EcrireSolde(s.portefeuilles, u, s.portefeuilles[u].solde - montant.value),
             journal := s.journal + [Mouvement(u, Debite, montant.value, None)]), None)
  }

  datatype Requete =
    | RCrediter(u: nat, montant: Option<real>, motif: bool)
    | RDebiter(u: nat, montant: Option<real>, motif: bool)
    | RReinitialiser(u: nat, confirme: bool, motif: bool)
    | RSuspendre(u: nat, suspendu: bool)
    | RPayer(id: nat, appelant: nat)
    | RCommander(commande: Commande)
    | REnvoyer(e: nat, d: nat, envoi: Option<int>, cle: Option<string>)
    | RCotiser(u: nat, montant: Option<real>, valable: bool, keiwa: bool)

  function Etape(s: Coffre, r: Requete): Coffre {
    match r
    case RCrediter(u, m, motif) => Crediter(s, u, m, motif).0
    case RDebiter(u, m, motif) => Debiter(s, u, m, motif).0
    case RReinitialiser(u, c, motif) => Reinitialiser(s, u, c, motif).0
    case RSuspendre(u, b) => Suspendre(s, u, b)
    case RPayer(id, appelant) => Payer(s, id, appelant).0
    case RCommander(c) => s.(commandes := s.commandes + [c.(payee := false)])
    case REnvoyer(e, d, m, cle) => Envoyer(s, e, d, m, cle).0
    case RCotiser(u, m, valable, keiwa) => Cotiser(s, u, m, valable, keiwa).0
  }

  function Executer(s: Coffre, rs: seq<Requete>): Coffre {
    if rs == [] then s else Etape(Executer(s, rs[..|rs| - 1]), rs[|rs| - 1])
  }

  // ── Balance equals journal ──────────────────────────────────────────────

  /** A credit counts for, a debit against the user it names. */
  function Signe(u: nat): Mouvement -> real {
    (m: Mouvement) => if m.user != u then 0.0 else if m.sens == Credite then m.montant else 0.0 - m.montant
  }

  /** What user u's balance holds beyond credits minus debits of its journal. */
  function Ecart(s: Coffre, u: nat): real
    requires u < |s.portefeuilles|
  {
    s.portefeuilles[u].solde - Somme(Signe(u), s.journal)
  }

  ghost predicate LoiSolde(s: Coffre) { forall u :: 0 <= u < |s.portefeuilles| ==> Ecart(s, u) == 0.0 }

  ghost predicate SoldesPositifs(s: Coffre) {
    forall u :: 0 <= u < |s.portefeuilles| ==> s.portefeuilles[u].solde >= 0.0 && s.portefeuilles[u].bloque >= 0.0
  }

  /** The payment of the order goes through, in keiwa. */
  predicate PaiementEffectif(s: Coffre, r: Requete) {
    && r.RPayer? && r.id < |s.commandes|
    && var c := s.commandes[r.id];
       && c.vendeur == r.appelant && !c.payee && c.keiwa && !c.directe && c.acheteur.Some? && c.total > 0.0
       && c.acheteur.value < |s.portefeuilles| && c.vendeur < |s.portefeuilles|
       && !s.portefeuilles[c.acheteur.value].suspendu && !s.portefeuilles[c.vendeur].suspendu
       && s.portefeuilles[c.acheteur.value].solde >= c.total
  }

  /** The order's buyer is its own seller. */
  predicate ASoiMeme(s: Coffre, r: Requete) {
    PaiementEffectif(s, r) && s.commandes[r.id].acheteur == Some(s.commandes[r.id].vendeur)
  }

  /** Money moves exactly when the payment is effective. */
  lemma PaiementOuRien(s: Coffre, r: Requete)
    requires r.RPayer?
    ensures PaiementEffectif(s, r) ==> Etape(s, r) == EcrirePaiement(s, r.id, s.commandes[r.id].acheteur.value)
    ensures !PaiementEffectif(s, r) ==> Etape(s, r).portefeuilles == s.portefeuilles && Etape(s, r).journal == s.journal
  {
  }

  /** The money a request creates for user u: an order she pays to herself. */
  function CreePour(s: Coffre, r: Requete, u: nat): real {
    if ASoiMeme(s, r) && s.commandes[r.id].vendeur == u then s.commandes[r.id].total else 0.0
  }

  lemma TransfertSoldes(ps: seq<Portefeuille>, a: nat, v: nat, montant: real, u: nat)
    requires a < |ps| && v < |ps| && u < |ps|
    ensures var ps' := Transferer(ps, a, v, montant);
      && |ps'| == |ps|
      && ps'[u].solde == if u == v then ps[u].solde + montant else if u == a then ps[u].solde - montant else ps[u].solde
  {
  }

  lemma DeuxRangs(js: seq<Mouvement>, x: Mouvement, y: Mouvement, u: nat)
    ensures Somme(Signe(u), js + [x] + [y]) == Somme(Signe(u), js) + Signe(u)(x) + Signe(u)(y)
  {
    SommeAjout(Signe(u), js, x);
    SommeAjout(Signe(u), js + [x], y);
  }

  lemma PaiementEcart(s: Coffre, id: nat, a: nat, u: nat)
    requires id < |s.commandes| && a < |s.portefeuilles| && u < |s.portefeuilles| && s.commandes[id].vendeur < |s.portefeuilles|
    ensures var (s', c) := (EcrirePaiement(s, id, a), s.commandes[id]);
      && |s'.portefeuilles| == |s.portefeuilles|
      && Ecart(s', u) == Ecart(s, u) + if a == c.vendeur == u then c.total else 0.0
  {
    var c := s.commandes[id];
    var d, k := Mouvement(a, Debite, c.total, Some(id)), Mouvement(c.vendeur, Credite, c.total, Some(id));
    TransfertSoldes(s.portefeuilles, a, c.vendeur, c.total, u);
    DeuxRangs(s.journal, d, k, u);
  }

  lemma TransfertEcart(s: Coffre, e: nat, d: nat, montant: real, cle: Option<string>, u: nat)
    requires e < |s.portefeuilles| && d < |s.portefeuilles| && e != d && u < |s.portefeuilles|
    ensures var s' := EcrireTransfert(s, e, d, montant, cle);
      |s'.portefeuilles| == |s.portefeuilles| && Ecart(s', u) == Ecart(s, u)
  {
    var x, y := Mouvement(e, Debite, montant, None, cle), Mouvement(d, Credite, montant, None, cle);
    TransfertSoldes(s.portefeuilles, e, d, montant, u);
    DeuxRangs(s.journal, x, y, u);
  }

  lemma AdminEcart(s: Coffre, r: Requete, u: nat)
    requires SoldesPositifs(s) && u < |s.portefeuilles| && !r.RPayer? && !r.REnvoyer?
    ensures |Etape(s, r).portefeuilles| == |s.portefeuilles|
    ensures Ecart(Etape(s, r), u) == Ecart(s, u)
  {
    var s' := Etape(s, r);
    if |s'.journal| > |s.journal| { SommeAjout(Signe(u), s.journal, s'.journal[|s.journal|]); }
  }

  /** A request moves a balance as it moves its journal, but for an order paid to oneself, which creates its total. */
  lemma EtapeEcart(s: Coffre, r: Requete, u: nat)
    requires SoldesPositifs(s) && u < |s.portefeuilles|
    ensures |Etape(s, r).portefeuilles| == |s.portefeuilles|
    ensures Ecart(Etape(s, r), u) == Ecart(s, u) + CreePour(s, r, u)
  {
    if r.RPayer? {
      PaiementOuRien(s, r);
      if PaiementEffectif(s, r) { PaiementEcart(s, r.id, s.commandes[r.id].acheteur.value, u); }
    }
    else if r.REnvoyer? {
      if Etape(s, r) != s { TransfertEcart(s, r.e, r.d, r.envoi.value as real, r.cle, u); }
    }
    else { AdminEcart(s, r, u); }
  }

  lemma EtapeSoldesPositifs(s: Coffre, r: Requete)
    requires SoldesPositifs(s)
    ensures SoldesPositifs(Etape(s, r)) && |Etape(s, r).portefeuilles| == |s.portefeuilles|
  {
  }

  /** The money a run creates for user u. */
  function Cree(s: Coffre, rs: seq<Requete>, u: nat): real {
    if rs == [] then 0.0
    else Cree(s, rs[..|rs| - 1], u) + CreePour(Executer(s, rs[..|rs| - 1]), rs[|rs| - 1], u)
  }

  /**
   Over every run no balance goes below zero, and each is what its journal says
   plus the orders its owner paid to herself.
   */
  lemma {:induction false} RunEcart(s: Coffre, rs: seq<Requete>, u: nat)
    requires SoldesPositifs(s) && u < |s.portefeuilles|
    ensures SoldesPositifs(Executer(s, rs)) && |Executer(s, rs).portefeuilles| == |s.portefeuilles|
    ensures Ecart(Executer(s, rs), u) == Ecart(s, u) + Cree(s, rs, u)
  {
    if rs != [] {
      var a := rs[..|rs| - 1];
      RunEcart(s, a, u);
      EtapeEcart(Executer(s, a), rs[|rs| - 1], u);
      EtapeSoldesPositifs(Executer(s, a), rs[|rs| - 1]);
    }
  }

  /** Nobody pays an order to herself in the run. */
  ghost predicate Distincts(s: Coffre, rs: seq<Requete>) {
    forall k :: 0 <= k < |rs| ==> !ASoiMeme(Executer(s, rs[..k]), rs[k])
  }

  lemma CreePourPositif(s: Coffre, r: Requete, u: nat)
    ensures CreePour(s, r, u) >= 0.0
    ensures ASoiMeme(s, r) ==> CreePour(s, r, s.commandes[r.id].vendeur) > 0.0
  {
  }

  /** What one request of the run created is never compensated later. */
  lemma {:induction false} CreeReste(s: Coffre, rs: seq<Requete>, u: nat, k: int)
    requires k < |rs|
    ensures Cree(s, rs, u) >= 0.0
    ensures 0 <= k ==> Cree(s, rs, u) >= CreePour(Executer(s, rs[..k]), rs[k], u)
  {
    if rs != [] {
      var n := |rs| - 1;
      CreePourPositif(Executer(s, rs[..n]), rs[n], u);
      CreeReste(s, rs[..n], u, if k < n then k else -1);
      if 0 <= k < n { assert rs[..n][..k] == rs[..k]; }
    }
  }

  lemma {:induction false} RienCree(s: Coffre, rs: seq<Requete>, u: nat)
    requires Distincts(s, rs)
    ensures Cree(s, rs, u) == 0.0
  {
    if rs != [] {
      var n := |rs| - 1;
      forall k | 0 <= k < n ensures !ASoiMeme(Executer(s, rs[..n][..k]), rs[..n][k]) { assert rs[..n][..k] == rs[..k]; }
      RienCree(s, rs[..n], u);
    }
  }

  /** After a run, every balance is credits minus debits of its journal exactly when nobody paid an order to herself. */
  lemma RunSolde(s: Coffre, rs: seq<Requete>)
    requires LoiSolde(s) && SoldesPositifs(s)
    ensures LoiSolde(Executer(s, rs)) <==> Distincts(s, rs)
  {
    var s' := Executer(s, rs);
    forall u: nat | u < |s.portefeuilles|
      ensures |s'.portefeuilles| == |s.portefeuilles| && Ecart(s', u) == Cree(s, rs, u)
    {
      RunEcart(s, rs, u);
    }
    TailleFixe(s, rs);
    if Distincts(s, rs) {
      forall u: nat ensures Cree(s, rs, u) == 0.0 { RienCree(s, rs, u); }
    } else {
      var k :| 0 <= k < |rs| && ASoiMeme(Executer(s, rs[..k]), rs[k]);
      var m := Executer(s, rs[..k]);
      TailleFixe(s, rs[..k]);
      var u := m.commandes[rs[k].id].vendeur;
      CreePourPositif(m, rs[k], u);
      CreeReste(s, rs, u, k);
      assert Ecart(s', u) > 0.0;
    }
  }

  /** A concrete run: credited 100 by an administrator, she orders from herself for 40 and collects; she holds 140, her journal says 100. */
  lemma CommanderASoiMeme()
    ensures var s := Coffre([Portefeuille(0.0, 0.0, false)], [], []);
      var rs := [RCrediter(0, Some(100.0), true), RCommander(Commande(Some(0), 0, 40.0, true, false, false)), RPayer(0, 0)];
      && LoiSolde(s) && SoldesPositifs(s)
      && |Executer(s, rs).portefeuilles| == 1 && Executer(s, rs).portefeuilles[0].solde == 140.0 && Ecart(Executer(s, rs), 0) == 40.0
  {
    var s, c := Coffre([Portefeuille(0.0, 0.0, false)], [], []), Commande(Some(0), 0, 40.0, true, false, false);
    var rs := [RCrediter(0, Some(100.0), true), RCommander(c), RPayer(0, 0)];
    assert rs[..2] == [rs[0], rs[1]] && rs[..2][..1] == [rs[0]] && rs[..1] == [rs[0]] && rs[..1][..0] == [];
    var s1 := Coffre([Portefeuille(100.0, 0.0, false)], [Mouvement(0, Credite, 100.0, None)], []);
    assert Executer(s, rs[..1]) == s1;
    var s2 := s1.(commandes := [c]);
    assert Executer(s, rs[..2]) == s2;
    assert PaiementEffectif(s2, rs[2]);
    PaiementOuRien(s2, rs[2]);
    SommeAjout(Signe(0), [], s1.journal[0]);
    EtapeEcart(s2, rs[2], 0);
  }

  lemma EtapeTaille(s: Coffre, r: Requete)
    ensures |Etape(s, r).portefeuilles| == |s.portefeuilles|
  {
  }

  lemma {:induction false} TailleFixe(s: Coffre, rs: seq<Requete>)
    ensures |Executer(s, rs).portefeuilles| == |s.portefeuilles|
  {
    if rs != [] {
      TailleFixe(s, rs[..|rs| - 1]);
      EtapeTaille(Executer(s, rs[..|rs| - 1]), rs[|rs| - 1]);
    }
  }

  // ── Conservation ────────────────────────────────────────────────────────

  function Solde(): Portefeuille -> real { (p: Portefeuille) => p.solde }

  function Total(s: Coffre): real { Somme(Solde(), s.portefeuilles) }

  /** A payment conserves the total money exactly when buyer and seller differ; to oneself it creates its amount. */
  lemma PaiementConserve(s: Coffre, r: Requete)
    requires PaiementEffectif(s, r)
    ensures Total(Etape(s, r)) == Total(s) + if ASoiMeme(s, r) then s.commandes[r.id].total else 0.0
    ensures Total(Etape(s, r)) == Total(s) <==> !ASoiMeme(s, r)
  {
    PaiementOuRien(s, r);
    var c, ps := s.commandes[r.id], s.portefeuilles;
    var a, v := c.acheteur.value, c.vendeur;
    var p1 := ps[a].(solde := ps[a].solde - c.total);
    SommeMaj(Solde(), ps, a, p1);
    var ps1 := ps[a := p1];
    SommeMaj(Solde(), ps1, v, ps1[v].(solde := ps[v].solde + c.total));
  }

  // ── Transfers ───────────────────────────────────────────────────────────

  /**
   A transfer that is not a replay moves its amount from the sender to the other, conserves the total, and touches
   nobody else; any other answer leaves everything as it was. The balance it announces is the sender's then.
   */
  lemma TransfertExact(s: Coffre, e: nat, d: nat, montant: Option<int>, cle: Option<string>)
    ensures var (s', rep) := Envoyer(s, e, d, montant, cle);
      && (rep.Refuse? || rep.dejaTraite ==> s' == s)
      && (rep.Fait? && e < |s.portefeuilles| ==> e < |s'.portefeuilles| && rep.solde == s'.portefeuilles[e].solde)
      && (rep.Fait? && !rep.dejaTraite ==>
            && montant.Some? && e < |s.portefeuilles| && d < |s.portefeuilles| == |s'.portefeuilles|
            && Total(s') == Total(s)
            && s'.portefeuilles[e].solde == s.portefeuilles[e].solde - montant.value as real
            && s'.portefeuilles[d].solde == s.portefeuilles[d].solde + montant.value as real
            && forall u :: 0 <= u < |s.portefeuilles| && u != e && u != d ==> s'.portefeuilles[u] == s.portefeuilles[u])
  {
    var (s', rep) := Envoyer(s, e, d, montant, cle);
    if rep.Fait? && !rep.dejaTraite {
      var ps, m := s.portefeuilles, montant.value as real;
      SommeMaj(Solde(), ps, e, ps[e].(solde := ps[e].solde - m));
      var ps1 := EcrireSolde(ps, e, ps[e].solde - m);
      SommeMaj(Solde(), ps1, d, ps1[d].(solde := ps[d].solde + m));
    }
  }

  /** No two rows of a user share a key in one direction. */
  ghost predicate ClesUniques(js: seq<Mouvement>) {
    forall i, j :: 0 <= i < j < |js| && js[i].cle.Some? && js[i].cle == js[j].cle && js[i].user == js[j].user ==> js[i].sens != js[j].sens
  }

  /** The journal only grows, and keeps its keys unique. */
  lemma EtapeJournal(s: Coffre, r: Requete)
    ensures s.journal <= Etape(s, r).journal
    ensures ClesUniques(s.journal) ==> ClesUniques(Etape(s, r).journal)
  {
    if r.RPayer? { PaiementOuRien(s, r); }
  }

  lemma {:induction false} RunJournal(s: Coffre, rs: seq<Requete>)
    ensures s.journal <= Executer(s, rs).journal
    ensures ClesUniques(s.journal) ==> ClesUniques(Executer(s, rs).journal)
  {
    if rs != [] {
      RunJournal(s, rs[..|rs| - 1]);
      EtapeJournal(Executer(s, rs[..|rs| - 1]), rs[|rs| - 1]);
    }
  }

  /**
   A keyed transfer that succeeded moves no money again: whatever happens in between, and whatever amount and
   recipient come with the key the next time, a request in bounds is answered as already done.
   */
  lemma TransfertUneFois(s: Coffre, e: nat, d: nat, montant: Option<int>, cle: Option<string>, rs: seq<Requete>, d': nat, montant': Option<int>)
    requires cle.Some? && Envoyer(s, e, d, montant, cle).1.Fait?
    ensures var s' := Executer(Envoyer(s, e, d, montant, cle).0, rs);
      && Envoyer(s', e, d', montant', cle).0 == s'
      && (Envoyer(s', e, d', montant', cle).1 ==
          if montant'.Some? && 0 < montant'.value <= PLAFOND && e != d'
          then Fait(true, if e < |s'.portefeuilles| then s'.portefeuilles[e].solde else 0.0) else Refuse(Invalide))
  {
    var s1 := Envoyer(s, e, d, montant, cle).0;
    var i: nat :| i < |s1.journal| && s1.journal[i].user == e && s1.journal[i].sens == Debite && s1.journal[i].cle == cle by {
      if s1 != s { assert s1.journal[|s.journal|] == Mouvement(e, Debite, montant.value as real, None, cle); }
    }
    RunJournal(s1, rs);
    assert Executer(s1, rs).journal[i] == s1.journal[i];
  }

  // ── An order moves money at most once ───────────────────────────────────

  /** The journal rows of an order. */
  function LignesDe(js: seq<Mouvement>, id: nat): seq<Mouvement> {
    if js == [] then []
    else
      var a := LignesDe(js[..|js| - 1], id);
      if js[|js| - 1].commande == Some(id) then a + [js[|js| - 1]] else a
  }

  lemma LignesAjout(js: seq<Mouvement>, m: Mouvement, id: nat)
    ensures LignesDe(js + [m], id) == if m.commande == Some(id) then LignesDe(js, id) + [m] else LignesDe(js, id)
  {
    assert (js + [m])[..|js|] == js;
  }

  /** An unpaid order has no row; a paid one has none (cash) or its debit and its credit, once. */
  ghost predicate UnSeulMouvement(s: Coffre, id: nat) {
    var l := LignesDe(s.journal, id);
    if id >= |s.commandes| then l == []
    else
      var c := s.commandes[id];
      l == [] || (c.payee && c.keiwa && c.acheteur.Some?
                  && l == [Mouvement(c.acheteur.value, Debite, c.total, Some(id)), Mouvement(c.vendeur, Credite, c.total, Some(id))])
  }

  ghost predicate LoiMouvement(s: Coffre) { forall id: nat :: UnSeulMouvement(s, id) }

  lemma TransfertMouvement(s: Coffre, cmd: nat, a: nat, id: nat)
    requires UnSeulMouvement(s, id) && cmd < |s.commandes| && a < |s.portefeuilles| && s.commandes[cmd].vendeur < |s.portefeuilles|
    requires s.commandes[cmd].acheteur == Some(a) && s.commandes[cmd].keiwa && !s.commandes[cmd].payee
    ensures UnSeulMouvement(EcrirePaiement(s, cmd, a), id)
  {
    var c := s.commandes[cmd];
    var d, k := Mouvement(a, Debite, c.total, Some(cmd)), Mouvement(c.vendeur, Credite, c.total, Some(cmd));
    LignesAjout(s.journal, d, id);
    LignesAjout(s.journal + [d], k, id);
  }

  lemma PayerMouvement(s: Coffre, r: Requete, id: nat)
    requires LoiMouvement(s) && r.RPayer?
    ensures UnSeulMouvement(Etape(s, r), id)
  {
    PaiementOuRien(s, r);
    assert UnSeulMouvement(s, id);
    if PaiementEffectif(s, r) { TransfertMouvement(s, r.id, s.commandes[r.id].acheteur.value, id); }
  }

  lemma EnvoiMouvement(s: Coffre, r: Requete, id: nat)
    requires LoiMouvement(s) && r.REnvoyer?
    ensures UnSeulMouvement(Etape(s, r), id)
  {
    assert UnSeulMouvement(s, id);
    if Etape(s, r) != s {
      var x, y := Mouvement(r.e, Debite, r.envoi.value as real, None, r.cle), Mouvement(r.d, Credite, r.envoi.value as real, None, r.cle);
      LignesAjout(s.journal, x, id);
      LignesAjout(s.journal + [x], y, id);
    }
  }

  lemma AutreMouvement(s: Coffre, r: Requete, id: nat)
    requires LoiMouvement(s) && !r.RPayer? && !r.REnvoyer?
    ensures UnSeulMouvement(Etape(s, r), id)
  {
    var s' := Etape(s, r);
    assert UnSeulMouvement(s, id);
    if |s'.journal| > |s.journal| { LignesAjout(s.journal, s'.journal[|s.journal|], id); }
  }

  lemma EtapeMouvement(s: Coffre, r: Requete)
    requires LoiMouvement(s)
    ensures LoiMouvement(Etape(s, r))
  {
    forall id: nat ensures UnSeulMouvement(Etape(s, r), id) {
      if r.RPayer? { PayerMouvement(s, r, id); } else if r.REnvoyer? { EnvoiMouvement(s, r, id); } else { AutreMouvement(s, r, id); }
    }
  }

  lemma {:induction false} RunMouvement(s: Coffre, rs: seq<Requete>)
    requires LoiMouvement(s)
    ensures LoiMouvement(Executer(s, rs))
  {
    if rs != [] {
      RunMouvement(s, rs[..|rs| - 1]);
      EtapeMouvement(Executer(s, rs[..|rs| - 1]), rs[|rs| - 1]);
    }
  }

  // ── The routes, step by step ────────────────────────────────────────────

  class BaseArgent {
    var portefeuilles: seq<Portefeuille>
    var journal: seq<Mouvement>
    var commandes: seq<Commande>

    function Vue(): Coffre
      reads this
    {
      Coffre(portefeuilles, journal, commandes)
    }

    constructor (depart: Coffre)
      ensures Vue() == depart
    {
      portefeuilles, journal, commandes := depart.portefeuilles, depart.journal, depart.commandes;
    }

    method Sauver(u: nat, solde: real)
      requires u < |portefeuilles|
      modifies this`portefeuilles
      ensures portefeuilles == EcrireSolde(old(portefeuilles), u, solde)
    {
      portefeuilles := portefeuilles[u := portefeuilles[u].(solde := solde)];
    }

    method CreditWallet(u: nat, montant: Option<real>, motif: bool) returns (refus: Option<RefusArgent>)
      modifies this
      ensures (Vue(), refus) == Crediter(old(Vue()), u, montant, motif)
    {
      if montant.None? || montant.value <= 0.0 || !motif { return Some(Invalide); }
      if u >= |portefeuilles| { return Some(Introuvable); }
      if portefeuilles[u].suspendu { return Some(Bloque); }
      Sauver(u, portefeuilles[u].solde + montant.value);
      journal := journal + [Mouvement(u, Credite, montant.value, None)];
      return None;
    }

    method DebitWallet(u: nat, montant: Option<real>, motif: bool) returns (refus: Option<RefusArgent>)
      modifies this
      ensures (Vue(), refus) == Debiter(old(Vue()), u, montant, motif)
    {
      if montant.None? || montant.value <= 0.0 || !motif { return Some(Invalide); }
      if u >= |portefeuilles| { return Some(Introuvable); }
      if portefeuilles[u].suspendu { return Some(Bloque); }
      var disponible := portefeuilles[u].solde - portefeuilles[u].bloque;
      if disponible < montant.value { return Some(SoldeInsuffisant); }
      Sauver(u, portefeuilles[u].solde - montant.value);
      journal := journal + [Mouvement(u, Debite, montant.value, None)];
      return None;
    }

    method ReinitialiserWallet(u: nat, confirme: bool, motif: bool) returns (refus: Option<RefusArgent>)
      modifies this
      ensures (Vue(), refus) == Reinitialiser(old(Vue()), u, confirme, motif)
    {
      if !confirme || !motif { return Some(Invalide); }
      if u >= |portefeuilles| { return Some(Introuvable); }
      var actuel := portefeuilles[u].solde;
      if actuel > 0.0 { journal := journal + [Mouvement(u, Debite, actuel, None)]; }
      portefeuilles := portefeuilles[u := portefeuilles[u].(solde := 0.0, bloque := 0.0)];
      return None;
    }

    method Transfert(e: nat, d: nat, montant: Option<int>, cle: Option<string>) returns (r: ReponseTransfert)
      modifies this
      ensures (Vue(), r) == Envoyer(old(Vue()), e, d, montant, cle)
    {
      if montant.None? || montant.value <= 0 || e == d || montant.value > PLAFOND { return Refuse(Invalide); }
      if CleUtilisee(journal, e, Debite, cle) { return Fait(true, if e < |portefeuilles| then portefeuilles[e].solde else 0.0); }
      if e >= |portefeuilles| || d >= |portefeuilles| { return Refuse(Introuvable); }
      var expediteur, destinataire, m := portefeuilles[e], portefeuilles[d], montant.value as real;
      if expediteur.suspendu || destinataire.suspendu { return Refuse(Bloque); }
      if expediteur.solde - expediteur.bloque < m { return Refuse(SoldeInsuffisant); }
      if CleUtilisee(journal, d, Credite, cle) { return Refuse(ErreurBase); }
      Sauver(e, expediteur.solde - m);
      Sauver(d, destinataire.solde + m);
      journal := journal + [Mouvement(e, Debite, m, None, cle)];
      journal := journal + [Mouvement(d, Credite, m, None, cle)];
      return Fait(false, portefeuilles[e].solde);
    }

    method EnregistrerCotisation(u: nat, montant: Option<real>, valable: bool, keiwa: bool) returns (refus: Option<RefusArgent>)
      modifies this
      ensures (Vue(), refus) == Cotiser(old(Vue()), u, montant, valable, keiwa)
    {
      if montant.None? || montant.value <= 0.0 || montant.value > PLAFOND as real || !valable { return Some(Invalide); }
      if !keiwa { return None; }
      if u >= |portefeuilles| { return Some(Introuvable); }
      if portefeuilles[u].suspendu { return Some(Bloque); }
      var disponible := portefeuilles[u].solde - portefeuilles[u].bloque;
      if disponible < montant.value { return Some(SoldeInsuffisant); }
      Sauver(u, portefeuilles[u].solde - montant.value);
      journal := journal + [Mouvement(u, Debite, montant.value, None)];
      return None;
    }

    method RecupererPaiement(id: nat, appelant: nat) returns (refus: Option<RefusArgent>)
      modifies this
      ensures (Vue(), refus) == Payer(old(Vue()), id, appelant)
    {
      if id >= |commandes| { return Some(Introuvable); }
      var c := commandes[id];
      if c.vendeur != appelant { return Some(Interdit); }
      if c.payee { return None; }
      if !c.keiwa {
        commandes := commandes[id := c.(payee := true)];
        return None;
      }
      if c.directe { return Some(Interdit); }
      if c.acheteur.None? { return Some(Invalide); }
      if c.total <= 0.0 { return Some(Invalide); }
      var a, v := c.acheteur.value, c.vendeur;
      if a >= |portefeuilles| || v >= |portefeuilles| { return Some(Introuvable); }
      if portefeuilles[a].suspendu || portefeuilles[v].suspendu { return Some(Bloque); }
      var acheteur, vendeur := portefeuilles[a], portefeuilles[v];
      if acheteur.solde < c.total { return Some(SoldeInsuffisant); }
      Sauver(a, acheteur.solde - c.total);
      Sauver(v, vendeur.solde + c.total);
      journal := journal + [Mouvement(a, Debite, c.total, Some(id))];
      journal := journal + [Mouvement(v, Credite, c.total, Some(id))];
      commandes := commandes[id := c.(payee := true)];
      return None;
    }
  }
}
