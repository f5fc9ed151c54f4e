/** The plugin's configuration as the Bukkit configuration API presents it:
    a map from keys to loaded values, read through typed getters that fall
    back to a default. */
module Settings {
  import opened JavaText

  /** The kinds of value the plugin stores or reads: YAML strings, integers
      and booleans. */
  datatype Value = Str(s: string) | Int(i: int) | Bool(b: bool)

  type Store = map<string, Value>

  /** Object.toString of a stored value. */
  function Render(v: Value): string {
    match v
    case Str(s) => s
    case Int(i) => IntToString(i)
    case Bool(b) => if b then "true" else "false"
  }

  /** getString(key, def): any stored value as text, else the default. */
  function GetString(c: Store, key: string, def: string): (r: string)
    ensures key !in c ==> r == def
    ensures key in c && c[key].Str? ==> r == c[key].s
  {
    if key in c then Render(c[key]) else def
  }

  /** getInt(key, def): a stored number, else the default; a stored string
      such as "8081" is not a number and yields the default. */
  function GetInt(c: Store, key: string, def: int): (r: int)
    ensures key in c && c[key].Int? ==> r == c[key].i
    ensures !(key in c && c[key].Int?) ==> r == def
  {
    if key in c && c[key].Int? then c[key].i else def
  }

  /** getBoolean(key, def): a stored boolean, else the default. */
  function GetBoolean(c: Store, key: string, def: bool): (r: bool)
    ensures key in c && c[key].Bool? ==> r == c[key].b
    ensures !(key in c && c[key].Bool?) ==> r == def
  {
    if key in c && c[key].Bool? then c[key].b else def
  }

  /** Setting a key and reading it back with the matching getter returns
      what was set, and leaves every other key's reading alone. */
  lemma SetThenGet(c: Store, key: string, other: string, v: Value, ds: string, di: int, db: bool)
    requires other != key
    ensures v.Str? ==> GetString(c[key := v], key, ds) == v.s
    ensures v.Int? ==> GetInt(c[key := v], key, di) == v.i
    ensures v.Bool? ==> GetBoolean(c[key := v], key, db) == v.b
    ensures GetString(c[key := v], other, ds) == GetString(c, other, ds)
    ensures GetInt(c[key := v], other, di) == GetInt(c, other, di)
    ensures GetBoolean(c[key := v], other, db) == GetBoolean(c, other, db)
  {
  }

  /** Every stored value renders as text, so getString never falls back
      when the key is present: an integer port, negative ones included,
      reads as its decimal text, and that text parses back to it. */
  lemma IntRendersAsDigits(c: Store, key: string, n: int)
    requires key in c && c[key] == Int(n)
    ensures forall d :: GetString(c, key, d) == IntToString(n)
    ensures n >= 0 ==> forall d :: GetString(c, key, d) == Dec(n)
    ensures IntMin <= n <= IntMax ==> ParseInt(GetString(c, key, "")) == Some(n)
  {
    if IntMin <= n <= IntMax {
      ParseIntToString(n);
    }
  }
}
