/** Privilege maps and their merge rules. */
module Privileges {

  /** The known privilege keys; any other key a caller may send is `UnknownKey`. */
  datatype Key =
    | CanUseAgent | CanUseBrowser | CanUseBash | CanUseDocuments | CanUseResearch
    | CanGenerateImages | CanManageMemory | MaxMessagesPerDay | AllowedModels
    | AllowedModelsRestricted | BlockAllModels
    | UnknownKey(name: string)

  datatype Value = Flag(on: bool) | Limit(count: int) | Names(models: seq<string>)

  type PrivMap = map<Key, Value>

  const DEFAULT_PRIVILEGES: PrivMap := map[
    CanUseAgent := Flag(true),
    CanUseBrowser := Flag(true),
    CanUseBash := Flag(false),
    CanUseDocuments := Flag(true),
    CanUseResearch := Flag(true),
    CanGenerateImages := Flag(true),
    CanManageMemory := Flag(true),
    MaxMessagesPerDay := Limit(0),
    AllowedModels := Names([]),
    AllowedModelsRestricted := Flag(false),
    BlockAllModels := Flag(false)
  ]

  /** Every default raised to its most permissive value of the same type, except
      for the two keys that would restrict an admin. */
  function AdminPrivileges(): PrivMap {
    (map k | k in DEFAULT_PRIVILEGES ::
       match DEFAULT_PRIVILEGES[k]
       case Flag(_) => Flag(true)
       case Limit(_) => Limit(0)
       case Names(_) => Names([]))
    [AllowedModelsRestricted := Flag(false)][BlockAllModels := Flag(false)]
  }

  /** `{**DEFAULT_PRIVILEGES, **stored}`. */
  function WithDefaults(stored: PrivMap): PrivMap {
    DEFAULT_PRIVILEGES + stored
  }

  /** Python's `stored or DEFAULT_PRIVILEGES`: an empty map is falsy. */
  function OrDefaults(stored: PrivMap): PrivMap {
    if stored == map[] then DEFAULT_PRIVILEGES else stored
  }

  /** The part of an update that names known keys. */
  function KnownUpdates(updates: PrivMap): PrivMap {
    map k | k in updates && k in DEFAULT_PRIVILEGES :: updates[k]
  }

  /** Every known key is there, a stored value wins over the default, and overlaying the
      defaults again changes nothing. */
  lemma WithDefaultsFacts(m: PrivMap)
    ensures WithDefaults(m).Keys == DEFAULT_PRIVILEGES.Keys + m.Keys
    ensures forall k :: k in WithDefaults(m) ==> WithDefaults(m)[k] == if k in m then m[k] else DEFAULT_PRIVILEGES[k]
    ensures WithDefaults(OrDefaults(m)) == WithDefaults(m)
    ensures WithDefaults(WithDefaults(m)) == WithDefaults(m)
  {
    if m == map[] {
      assert DEFAULT_PRIVILEGES + m == DEFAULT_PRIVILEGES;
      assert DEFAULT_PRIVILEGES + DEFAULT_PRIVILEGES == DEFAULT_PRIVILEGES;
    }
    assert DEFAULT_PRIVILEGES + (DEFAULT_PRIVILEGES + m) == DEFAULT_PRIVILEGES + m;
  }

  /** The admin map names every known key, so merging it with defaults changes nothing. */
  lemma AdminMapIsComplete()
    ensures AdminPrivileges().Keys == DEFAULT_PRIVILEGES.Keys
    ensures WithDefaults(AdminPrivileges()) == AdminPrivileges()
  {
    var keys := DEFAULT_PRIVILEGES.Keys;
    assert AllowedModelsRestricted in keys && BlockAllModels in keys;
    assert AdminPrivileges().Keys == keys;
  }
}
