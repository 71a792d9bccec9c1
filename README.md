# Instagram follower analysis: a Dafny model

This project models the core of `cek_followers_ig.py`, a script that reads two
Instagram data-export files and sorts accounts into three groups:

- **mutuals**: accounts the user follows that also follow the user;
- **not following back**: accounts the user follows that do not follow back;
- **fans**: accounts that follow the user whom the user does not follow.

The model has three parts.

1. **Username extraction.** This is `_load_usernames_from_file` once `json.load`
   has produced a document. The record list is `data.get(data_key, [])` for a
   non-empty `data_key`, and the document itself otherwise. For each record, the
   function keeps `record[list_key][0]['value']` when that path is present and
   truthy. The kept values form a set.
2. **Classification.** This is `run_analysis`'s intersection and the two
   differences, each turned into a sorted list with `sorted(list(...))`.
3. **The fail-fast guard.** There is no classification when either file failed
   to load.

Modules:

- `Wrappers` (wrappers.dfy): `Option`, the model of Python's `None`.
- `Json` (json.dfy): the parsed document, Python truthiness (`Truthy`), and a
  safe-navigation reference for the path `record[key][0]['value']`
  (`FirstEntryValue`).
- `StringOrder` (string_order.dfy): Python's `<` on `str` (`Below`), which
  compares code points lexicographically. It is proved to be a strict total
  order. The module also has `SortedList`, the model of `sorted(list(s))` for a
  set `s`.
- `FollowersAnalysis` (followers.dfy): extraction, loading, classification and
  the guard.

How one record is evaluated is captured by `RecordStep`. It copies Python's
evaluation of the filter and the element expression, including the failures.
A record is either skipped, kept with its username, stores a non-string value,
raises the `KeyError` that the loader catches, or raises an exception that
nothing catches. `Admissible` is the precondition of loading. It holds exactly
on the documents where Python neither raises an uncaught exception nor returns
a set with a non-string element. It respects Python's order of evaluation: a
record that would raise does no harm once an earlier record has already raised
the caught `KeyError`.

The comments in the code present the record access as a safe one. Lines 79-80
describe `.get(list_key, [{}])[0]` as the safe way to read a list that may be
missing, and lines 84-85 say the filter drops corrupt or empty data. Two cases
still raise:

- A record whose `list_key` holds a non-empty dict makes `[0]` raise
  `KeyError`. The handler at lines 97-100 catches it, and the whole file loads
  as `None`. `KeyErrorAbortsLoad` states this.
- A record that is not a dict raises an uncaught `AttributeError`. So does a
  first entry that is not a dict. `Admissible` excludes these cases.

## Model

| member | source | states |
|---|---|---|
| `Json.Truthy` | cek_followers_ig.py:86 | Python's `bool` on a parsed value: exactly `null`, `false`, `0`, `""`, `[]` and `{}` are falsy. |
| `StringOrder.Below` | cek_followers_ig.py:164-167 | Python's `<` on `str`: it never holds between equal strings, a proper prefix comes first, and a smaller first code point comes first. |
| `FollowersAnalysis.Items` | cek_followers_ig.py:83 | `for item in data_list` visits the items of a list. An empty dict or empty string visits nothing. Any other value has no record list, because Python raises. |
| `FollowersAnalysis.RecordList` | cek_followers_ig.py:67-73 | A non-empty `data_key` selects the record list stored under it, chosen exactly as that value would be with the empty key. If the key is absent, the list is empty. A non-dict document has no record list. A list document with the empty key is its own record list. |
| `FollowersAnalysis.ContainerKeyReduces` | cek_followers_ig.py:67-73 | A dict document whose non-empty `data_key` is present is admissible exactly when the value under that key is admissible with the empty key. It then loads to the same result. |
| `FollowersAnalysis.MissingDataKeyLoadsEmpty` | cek_followers_ig.py:67-70 | Take a dict document without the non-empty `data_key`. It is admissible, and it loads as the empty username set. |
| `FollowersAnalysis.KeptIsFirstEntryValue` | cek_followers_ig.py:77-86 | A record yields username `u` exactly when the safe-navigation value of `record[list_key][0]['value']` is the string `u` and `u` is non-empty. |
| `FollowersAnalysis.RecordStep` | cek_followers_ig.py:77-86 | A kept record carries the non-empty string of `record[list_key][0]['value']`. A record is skipped exactly when it is a dict whose `list_key` is missing or falsy, or whose first entry yields nothing. It raises `KeyError` exactly when a truthy `list_key` value is a dict. A non-dict record raises. |
| `FollowersAnalysis.EntryStep` | cek_followers_ig.py:81-86 | The first entry yields `u` exactly when it is a dict whose 'value' is the non-empty string `u`. It is skipped exactly when it is a dict without a truthy 'value'. It never raises `KeyError`. |
| `FollowersAnalysis.Admissible` | cek_followers_ig.py:66-100 | An admissible document has a record list. If no record raises the caught `KeyError`, every record is skipped or kept. |
| `FollowersAnalysis.SkippedRecords` | cek_followers_ig.py:81-86 | A dict record is skipped without failing when its `list_key` is missing or falsy (`null`, `""`, `0`, `false`, `[]` or `{}`), or when its first entry is a dict without a truthy 'value'. |
| `FollowersAnalysis.LaterEntriesIgnored` | cek_followers_ig.py:81-86 | Replacing the entries after the first one in a record's `list_key` array never changes what that record contributes. |
| `FollowersAnalysis.Usernames` | cek_followers_ig.py:77-87 | The extracted set contains exactly the non-empty string `value`s of the first `list_key` entry of some record. |
| `FollowersAnalysis.UsernamesAppend` | cek_followers_ig.py:77-87 | Extracting from two record lists joined together gives the union of extracting from each list. |
| `FollowersAnalysis.SkippedRecordContributesNothing` | cek_followers_ig.py:83-86 | Inserting a skipped record anywhere in the record list leaves the username set unchanged. |
| `FollowersAnalysis.DuplicateContributesOnce` | cek_followers_ig.py:77-87 | Adding a record whose username is already present leaves the set unchanged, so duplicates appear once. |
| `FollowersAnalysis.UsernamesBound` | cek_followers_ig.py:77-90 | There are never more usernames than records. |
| `FollowersAnalysis.Load` | cek_followers_ig.py:66-100 | A file that is missing or not valid JSON gives `None`. An admissible document gives `None` exactly when some record raises the caught `KeyError`. Otherwise the result is the set of names that records keep. |
| `FollowersAnalysis.LoadedRecordsAreSkippedOrKept` | cek_followers_ig.py:77-90 | When a document loads, every one of its records was either skipped or kept. None of them failed. |
| `FollowersAnalysis.KeyErrorAbortsLoad` | cek_followers_ig.py:81-100 | A record whose `list_key` value is a non-empty dict makes the whole file load as `None`. |
| `FollowersAnalysis.Classify` | cek_followers_ig.py:164-167 | `mutuals` holds exactly the names in both sets, `notFollowingBack` exactly `following - followers`, and `fans` exactly `followers - following`. Each list is strictly ascending in Python's string order, and each length equals the size of its set. |
| `FollowersAnalysis.ClassificationPartitions` | cek_followers_ig.py:164-167 | The three lists are pairwise disjoint. `mutuals` with `notFollowingBack` is exactly `following`, and `mutuals` with `fans` is exactly `followers`. The lengths add up to the sizes of the two sets. |
| `FollowersAnalysis.ClassificationDistinct` | cek_followers_ig.py:164-169 | No list contains a name twice. |
| `FollowersAnalysis.ClassifySwapped` | cek_followers_ig.py:164-167 | Swapping the two sets leaves `mutuals` unchanged and exchanges `notFollowingBack` and `fans`. |
| `FollowersAnalysis.ClassifyIdentical` | cek_followers_ig.py:164-167 | When `following` equals `followers`, every name is mutual and both one-way lists are empty. |
| `FollowersAnalysis.ClassifyDisjoint` | cek_followers_ig.py:164-167 | When the sets are disjoint, `mutuals` is empty and the one-way lists are the two sets, sorted. |
| `FollowersAnalysis.ClassifyExample` | cek_followers_ig.py:164-167 | Following {alice, bob, carol} with followers {bob, dave} gives mutuals [bob], not following back [alice, carol] and fans [dave]. |
| `FollowersAnalysis.Analyse` | cek_followers_ig.py:154-167 | There is no classification exactly when either set failed to load. Otherwise the result is the classification of the two sets. |
| `FollowersAnalysis.RunAnalysis` | cek_followers_ig.py:139-167 | A file that is missing or not valid JSON means no classification. There is a classification exactly when both loads succeed, using the keys `relationships_following`/`string_list_data` and `""`/`string_list_data`, and it classifies those two sets. |
| `FollowersAnalysis.RunAnalysisRecordLists` | cek_followers_ig.py:139-149 | A following file holding `relationships_following` is admissible exactly when the value under that key is admissible as a followers file, and it then loads the same. A following file without that key loads as following nobody. |
| `StringOrder.BelowIsLexicographic` | cek_followers_ig.py:164-167 | The recursive string order equals the common-prefix definition used by `sorted`'s `<`: after a shared prefix, either the first string ends or its next code point is smaller. |
| `StringOrder.BelowIrreflexive` | cek_followers_ig.py:164-167 | No string is below itself. |
| `StringOrder.BelowTransitive` | cek_followers_ig.py:164-167 | The string order is transitive. |
| `StringOrder.BelowAsymmetric` | cek_followers_ig.py:164-167 | The string order is asymmetric. |
| `StringOrder.BelowTotal` | cek_followers_ig.py:164-167 | Any two distinct strings are comparable. |
| `StringOrder.StrictlySortedDistinct` | cek_followers_ig.py:164-169 | A strictly ascending list has no repeated element. |
| `StringOrder.LeastExists` | cek_followers_ig.py:164-167 | Every non-empty set of strings has a least element. |
| `StringOrder.LeastUnique` | cek_followers_ig.py:164-167 | A set of strings has at most one least element. |
| `StringOrder.Least` | cek_followers_ig.py:164-167 | The result is in the set and below every other element of it. |
| `StringOrder.SortedList` | cek_followers_ig.py:164-169 | `sorted(list(s))` is strictly ascending and contains exactly the elements of `s`, so its length is the size of `s`. |
| `StringOrder.SortedListUnique` | cek_followers_ig.py:164-169 | Any strictly ascending list with exactly the elements of `s` equals `SortedList(s)`. So the order in which `list(s)` visits the set does not affect the result. |

## Left out

- Reading the files is left out: the existence check, `open`, `json.load` and
  the `JSONDecodeError` handler with its message (lines 54-64, 93-96). Loading
  is a parameter of type `Option<Json>`, where `None` means the file is missing
  or is not valid JSON.
- Some files exist but cannot be read or decoded. A file that is not valid
  UTF-8 raises `UnicodeDecodeError` inside `json.load`, and a permission or
  directory error raises `OSError`. Neither is caught at line 93 or line 97, so
  the script stops with an exception. These outcomes have no counterpart in the
  `Option<Json>` parameter.
- All console output is left out as presentation: `_display_results`, the
  banners, and the count and progress messages (lines 103-125, 135, 155,
  158-159, 173-182).
- The file path constants and the `__main__` entry point (lines 29-30, 189-193)
  are configuration. They are replaced by the two document parameters of
  `RunAnalysis`.
- Load: documents on which Python raises an uncaught exception are excluded by
  the `Admissible` precondition, because the code promises nothing for them.
  Examples are a record that is not a dict, a first entry that is not a dict, a
  truthy `list_key` value that is neither a list nor a dict, and a non-dict
  document with a non-empty `data_key`. Documents whose kept `value` is a truthy
  number or `true` are excluded unless some record raises the caught
  `KeyError`; otherwise Python would return a set with a non-string element.
- JSON numbers are modelled as `real`. `NaN` and `Infinity`, which `json.load`
  accepts, are not represented; only their truthiness would matter here.
- Python strings can hold lone surrogate code points, for example from `\ud800`
  escapes. Dafny's `char` cannot, so the string order is not modelled for
  strings that contain them.
- Idempotence of the classification needs no lemma. Every operation is a
  mathematical function of its inputs, so calling it twice on the same inputs
  gives the same, identically ordered, result.
