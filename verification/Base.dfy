/** The database as the routes see it: one mutable table per field. */
module BaseDonnees {
  import opened Commun
  import opened Tables

  class Base {
    var ecritures: seq<Ecriture>
    var produits: seq<Option<Produit>>
    var mouvements: seq<Mouvement>
    var clesStock: set<string>
    var sessions: map<CleSession, Session>
    var journal: seq<LigneFond>
    var credits: seq<Credit>
    var clients: map<CleClient, Client>
    var audits: seq<Audit>

    /** The tables as one value. */
    function Vue(): Etat
      reads this
    {
      Etat(ecritures, produits, mouvements, clesStock, sessions, journal, credits, clients, audits)
    }

    constructor ()
      ensures Vue() == Etat([], [], [], {}, map[], [], [], map[], [])
    {
      ecritures, produits, mouvements, clesStock, sessions := [], [], [], {}, map[];
      journal, credits, clients, audits := [], [], map[], [];
    }

    /** ROLLBACK to the tables as they were when the transaction started. */
    method Annuler(avant: Etat)
      modifies this
      ensures Vue() == avant
    {
      ecritures, produits, mouvements := avant.ecritures, avant.produits, avant.mouvements;
      clesStock, sessions := avant.clesStock, avant.sessions;
      journal, credits, clients, audits := avant.journal, avant.credits, avant.clients, avant.audits;
    }

    method InsererEcriture(e: Ecriture) returns (id: nat)
      modifies this`ecritures
      ensures id == old(|ecritures|) && ecritures == old(ecritures) + [e]
    {
      id := |ecritures|;
      ecritures := ecritures + [e];
    }

    method InsererMouvement(m: Mouvement)
      modifies this`mouvements
      ensures mouvements == old(mouvements) + [m]
    {
      mouvements := mouvements + [m];
    }

    /** UPDATE produits SET stock = … WHERE id = … */
    method EcrireStock(id: nat, stock: real)
      requires Existe(produits, id)
      modifies this`produits
      ensures produits == old(produits)[id := Some(old(produits)[id].value.(stock := Some(stock)))]
    {
      produits := produits[id := Some(produits[id].value.(stock := Some(stock)))];
    }

    method EcrireSession(cle: CleSession, s: Session)
      modifies this`sessions
      ensures sessions == old(sessions)[cle := s]
    {
      sessions := sessions[cle := s];
    }
  }
}
