/**
 * Data migration 0013: the Configuration row named ext_files, which maps each file
 * category to its extensions; the forward step creates or updates it, the reverse step
 * deletes it. Configuration names are unique (app/house/models/configuration.py).
 */
module ExtFilesConfig {
  import opened Wrappers
  import opened Seqs

  /** The JSON value of a configuration: category name to its list of extensions. */
  type Mapping = map<string, seq<string>>

  /** One row of the Configuration table; times are epoch seconds. */
  datatype ConfigRow = ConfigRow(name: string, config: Mapping, createdAt: int, updatedAt: int)

  const ExtFilesName := "ext_files"

  const ExtFiles: Mapping := map[
    "text" := ["txt"],
    "docs" := ["doc", "docx", "pdf"],
    "spreadsheet" := ["csv", "xls", "xlsx"],
    "audio" := ["mp3", "wav"],
    "video" := ["mp4", "avi", "mkv"],
    "folder" := ["zip"],
    "image" := ["png", "jpg", "jpeg", "gif"]
  ]

  /** No extension is listed under two categories, nor twice under one. */
  lemma ExtensionsHaveOneCategory()
    ensures forall c1, c2, e | c1 in ExtFiles && c2 in ExtFiles && e in ExtFiles[c1] && e in ExtFiles[c2] :: c1 == c2
    ensures forall c, i, j | c in ExtFiles && 0 <= i < j < |ExtFiles[c]| :: ExtFiles[c][i] != ExtFiles[c][j]
  {
  }

  /** The unique constraint on Configuration.name. */
  ghost predicate UniqueNames(rows: seq<ConfigRow>) {
    forall i, j | 0 <= i < j < |rows| :: rows[i].name != rows[j].name
  }

  /** The position of the row with the given name, if there is one. */
  function IndexOfName(rows: seq<ConfigRow>, name: string): (r: Option<nat>)
    ensures r.Some? ==> r.value < |rows| && rows[r.value].name == name
    ensures r.Some? ==> forall k | 0 <= k < r.value :: rows[k].name != name
    ensures r.None? ==> forall k | 0 <= k < |rows| :: rows[k].name != name
    decreases |rows|
  {
    if rows == [] then None
    else if rows[0].name == name then Some(0)
    else match IndexOfName(rows[1..], name)
      case None => None
      case Some(k) => Some(k + 1)
  }

  /**
   * update_or_create(name=name, defaults={'config': config}) at time now: the existing
   * row gets the new config and a fresh updated_at; without one a new row is appended.
   */
  function UpdateOrCreate(rows: seq<ConfigRow>, name: string, config: Mapping, now: int): (r: seq<ConfigRow>)
    requires UniqueNames(rows)
    ensures UniqueNames(r)
    ensures exists i | 0 <= i < |r| :: r[i].name == name && r[i].config == config && r[i].updatedAt == now
    ensures forall row | row in rows && row.name != name :: row in r
    ensures forall row | row in r && row.name != name :: row in rows
    ensures |r| == if IndexOfName(rows, name).Some? then |rows| else |rows| + 1
  {
    match IndexOfName(rows, name)
    case Some(i) =>
      var r := rows[i := rows[i].(config := config, updatedAt := now)];
      assert r[i].name == name;
      assert forall k | 0 <= k < |rows| && k != i :: r[k] == rows[k];
      r
    case None =>
      var r := rows + [ConfigRow(name, config, now, now)];
      assert r[|rows|].name == name;
      r
  }

  /** The row with a given name in a table with unique names carries that name's data. */
  lemma UniqueRowFound(rows: seq<ConfigRow>, name: string, i: nat)
    requires UniqueNames(rows) && i < |rows| && rows[i].name == name
    ensures IndexOfName(rows, name) == Some(i)
  {
  }

  /** Running the forward step twice at the same time gives the table running it once gives. */
  lemma UpdateOrCreateIdempotent(rows: seq<ConfigRow>, name: string, config: Mapping, now: int)
    requires UniqueNames(rows)
    ensures UpdateOrCreate(UpdateOrCreate(rows, name, config, now), name, config, now)
         == UpdateOrCreate(rows, name, config, now)
  {
    var once := UpdateOrCreate(rows, name, config, now);
    match IndexOfName(rows, name)
    case Some(i) =>
      UniqueRowFound(once, name, i);
      assert once[i := once[i].(config := config, updatedAt := now)] == once;
    case None =>
      UniqueRowFound(once, name, |rows|);
      assert once[|rows| := once[|rows|].(config := config, updatedAt := now)] == once;
  }

  /** An existing row keeps its place and creation time; only its data and updated_at change. */
  lemma UpdateReplacesInPlace(rows: seq<ConfigRow>, name: string, config: Mapping, now: int, i: nat)
    requires UniqueNames(rows) && i < |rows| && rows[i].name == name
    ensures var r := UpdateOrCreate(rows, name, config, now);
      && |r| == |rows|
      && r[i] == ConfigRow(name, config, rows[i].createdAt, now)
      && forall k | 0 <= k < |rows| && k != i :: r[k] == rows[k]
  {
    UniqueRowFound(rows, name, i);
  }

  predicate NotNamedExtFiles(row: ConfigRow) {
    row.name != ExtFilesName
  }

  /** Configuration.objects.filter(name='ext_files').delete(): the rows of every other name, in order. */
  function DeleteNamed(rows: seq<ConfigRow>): (r: seq<ConfigRow>)
    ensures forall row | row in r :: row.name != ExtFilesName
    ensures forall row | row in rows && row.name != ExtFilesName :: multiset(r)[row] == multiset(rows)[row]
    ensures IsSubsequence(r, rows)
  {
    KeepInOrder(rows, NotNamedExtFiles);
    Keep(rows, NotNamedExtFiles)
  }

  /** The reverse step on a table without an ext_files row changes nothing. */
  lemma DeleteWithoutRowIsIdentity(rows: seq<ConfigRow>)
    requires forall row | row in rows :: row.name != ExtFilesName
    ensures DeleteNamed(rows) == rows
  {
    KeepAll(rows, NotNamedExtFiles);
  }

  /** The Configuration table, updated in place by the migration. */
  class ConfigurationTable {
    var rows: seq<ConfigRow>

    ghost predicate Valid()
      reads this
    {
      UniqueNames(rows)
    }

    constructor (initial: seq<ConfigRow>)
      requires UniqueNames(initial)
      ensures Valid() && rows == initial
    {
      rows := initial;
    }

    /** add_ext_files_configuration */
    method AddExtFilesConfiguration(now: int)
      requires Valid()
      modifies this
      ensures Valid()
      ensures rows == UpdateOrCreate(old(rows), ExtFilesName, ExtFiles, now)
      ensures exists i | 0 <= i < |rows| :: rows[i].name == ExtFilesName && rows[i].config == ExtFiles
    {
      rows := UpdateOrCreate(rows, ExtFilesName, ExtFiles, now);
    }

    /** reverse_ext_files_configuration */
    method ReverseExtFilesConfiguration()
      requires Valid()
      modifies this
      ensures Valid()
      ensures rows == DeleteNamed(old(rows))
      ensures forall row | row in old(rows) && row.name != ExtFilesName :: row in rows
    {
      KeepPairwise(rows, NotNamedExtFiles, (a: ConfigRow, b: ConfigRow) => a.name != b.name);
      rows := DeleteNamed(rows);
    }
  }
}
