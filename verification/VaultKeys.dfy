/**
 The texts under which secrets are filed. One flat store holds them all, so two secrets that
 are not the same must not be filed under one text.
 */
module VaultKeys {
  import opened BackupSecrets
  import opened Json
  import opened Records

  /** What each kind of key begins with. */
  function Prefix(kind: Kind): string {
    match kind
    case Password => "password-"
    case Passphrase => "passphrase-"
    case ProxyPassword => "proxy-password-"
    case ProfilePassword => "auth-profile-password-"
    case ProfilePassphrase => "auth-profile-passphrase-"
  }

  const SOURCE_PREFIX: string := "inventory-source-"

  /** The key functions of the source, one for each kind. */
  function KeyText(key: SecretKey): string {
    match key
    case RecordSecret(kind, id) => Prefix(kind) + id
    case SourceSecret(id, field) => SOURCE_PREFIX + (Digits(|id|) + ":" + (id + (":" + field)))
  }

  /** The first text up to its colon is the same in both. */
  lemma UpToColon(p: string, q: string, s: string, t: string)
    requires ':' !in p && ':' !in q && p + ":" + s == q + ":" + t
    ensures p == q && s == t
  {
    var x, y := p + ":" + s, q + ":" + t;
    assert y[|p|] == ':' && x[|q|] == ':';
    assert p == x[..|p|] && q == y[..|q|];
    Drop(p + ":", s, t);
  }

  lemma SameLengthTells(p: string, q: string, s: string, t: string)
    requires |p| == |q| && p + s == q + t
    ensures p == q && s == t
  {
    assert p == (p + s)[..|p|] && q == (q + t)[..|q|];
    Drop(p, s, t);
  }

  /** Where the length of the id is written first, the id and the field can be told apart. */
  lemma SourceKeyTells(id: Id, field: string, id': Id, field': string)
    requires KeyText(SourceSecret(id, field)) == KeyText(SourceSecret(id', field'))
    ensures id == id' && field == field'
  {
    var s, t := id + (":" + field), id' + (":" + field');
    DigitsAreDigits(|id|);
    DigitsAreDigits(|id'|);
    Drop(SOURCE_PREFIX, Digits(|id|) + ":" + s, Digits(|id'|) + ":" + t);
    UpToColon(Digits(|id|), Digits(|id'|), s, t);
    DigitsTell(|id|, |id'|);
    SameLengthTells(id, id', ":" + field, ":" + field');
    Drop(":", field, field');
  }

  /** The texts of keys of two kinds differ within their beginnings. */
  lemma BeginsAs(key: SecretKey)
    ensures var x := KeyText(key);
      && |x| > 8
      && (key.SourceSecret? ==> x[1] == 'n')
      && (key.RecordSecret? ==>
            && x[1] == (match key.kind case ProxyPassword => 'r' case Password => 'a' case Passphrase => 'a' case _ => 'u')
            && (key.kind.Password? ==> x[4] == 'w') && (key.kind.Passphrase? ==> x[4] == 'p')
            && (key.kind.ProfilePassword? ==> |x| > 17 && x[17] == 'w') && (key.kind.ProfilePassphrase? ==> |x| > 17 && x[17] == 'p'))
  {
  }

  /** Two secrets are filed under one text only if they are of one kind, record and field. */
  lemma KeyTextsTell(a: SecretKey, b: SecretKey)
    ensures KeyText(a) == KeyText(b) <==> a == b
  {
    if KeyText(a) == KeyText(b) {
      BeginsAs(a);
      BeginsAs(b);
      if a.RecordSecret? && b.RecordSecret? {
        Drop(Prefix(a.kind), a.id, b.id);
      } else if a.SourceSecret? && b.SourceSecret? {
        SourceKeyTells(a.id, a.field, b.id, b.field);
      }
    }
  }
}
