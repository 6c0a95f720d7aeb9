# hive-ai-agent farm tools, in Dafny

The hive-ai-agent backend answers chat messages through a language-model agent.
The agent may call two lookup tools defined in `main.py`:

- `check_inventory(product_name)` lower-cases the product name. It answers the
  comb-honey stock message if the name contains "comb". Otherwise it answers the
  moringa-honey stock message if the name contains "moringa". Otherwise it
  answers a "not in our current inventory" message that embeds the name as given.
- `get_academy_schedule(course_type)` lower-cases the course type. It answers the
  basic-course message if the text contains "basic". Otherwise it answers the
  commercial-course message if the text contains "commercial". Otherwise it asks
  which of the two courses is meant.

This project models those two tools as pure Dafny functions over `string`. It
proves which reply each input gets, that the first keyword takes precedence, that
the keyword may appear anywhere in any letter case, and that letter case never
changes the branch. It also proves that the fallback stock reply carries the
product name verbatim.

- `pystr.dfy` (module `PyStr`) models the two Python string operations the tools
  use. `Lower` is `str.lower()` on ASCII letters. `Contains` is the substring
  test `needle in haystack`. `Occurs` is the specification predicate for
  `Contains`: the needle equals some contiguous slice of the haystack.
- `farm_tools.dfy` (module `FarmTools`) holds the reply texts as constants, copied
  verbatim from `main.py`, plus the two tools and the lemmas about them.

The tool contracts are stated against `Occurs`, an existential over slices. The
bodies use `Contains`, the search that Python's `in` performs.

## Model

| member | source | states |
|---|---|---|
| PyStr.LowerChar | main.py:42 | 'A'..'Z' become the matching 'a'..'z'; every other character is unchanged; no result is an upper-case ASCII letter |
| PyStr.Lower | main.py:42 | `.lower()` keeps the length and folds each character on its own, so character i of the result is character i of the input, lower-cased |
| PyStr.Contains | main.py:42 | the `in` test is true exactly when the needle equals some contiguous slice of the haystack |
| PyStr.OccursPastHead | main.py:42 | when the needle is not a prefix, it occurs in the haystack exactly when it occurs in the haystack without its first character, which is the step the left-to-right search relies on |
| PyStr.LowerAppend | main.py:42 | lower-casing a concatenation is the concatenation of the lower-cased parts |
| PyStr.EqualIgnoringCaseLower | main.py:42 | strings that differ only in letter case lower-case to the same string, and every string differs from its lower-cased form only in letter case |
| PyStr.OccursAnywhere | main.py:42 | a word that lower-cases to the keyword is found in the lower-cased text, whatever text surrounds it |
| FarmTools.NotInInventory | main.py:47 | the fallback reply is the fixed opening, then the name as given, then the fixed closing, and nothing else |
| FarmTools.CheckInventory | main.py:40-47 | the reply is the comb stock message iff the lower-cased name contains "comb"; it is the moringa stock message iff the name contains "moringa" but not "comb"; it is the not-found message embedding the name iff it contains neither; so every input gets exactly one of these three replies |
| FarmTools.NotInInventoryEchoesName | main.py:46-47 | the not-found reply holds the product name verbatim (not lower-cased) right after its fixed opening, so two names give the same reply only if they are the same name |
| FarmTools.CombAnywhere | main.py:42-43 | any text that contains a word lower-casing to "comb", with any text before and after it, gets the comb stock message |
| FarmTools.CombBeatsMoringa | main.py:42-45 | text that contains both a "comb" word and a "moringa" word gets the comb stock message, in whichever order the two words appear |
| FarmTools.InventoryIgnoresCase | main.py:40-47 | two product names that differ only in letter case select the same branch: both comb, both moringa, or both not found |
| FarmTools.GetAcademySchedule | main.py:50-57 | the reply is the basic-course message iff the lower-cased text contains "basic"; it is the commercial-course message iff the text contains "commercial" but not "basic"; it is the course-choice prompt iff it contains neither |
| FarmTools.BasicAnywhere | main.py:52-53 | any text that contains a word lower-casing to "basic", with any text before and after it, gets the basic-course message |
| FarmTools.BasicBeatsCommercial | main.py:52-55 | text that contains both a "basic" word and a "commercial" word gets the basic-course message, in whichever order the two words appear |
| FarmTools.ScheduleIgnoresCase | main.py:50-57 | two course texts that differ only in letter case get the identical schedule reply |
| FarmTools.SpecifyCourseIgnoresInput | main.py:56-57 | any two texts that mention neither course get the same course-choice prompt, so that reply does not depend on the input |

## Left out

- PyStr.Lower: folds only ASCII `A`–`Z`. Python's `str.lower()` also folds other Unicode letters, and some of them become two characters. An example is `'İ'` (U+0130), which becomes `"i̇"`. The model treats every non-ASCII character as unchanged. This never changes which reply a tool gives. Only two non-ASCII characters lower-case to ASCII letters: U+0130 becomes "i" followed by U+0307, and U+212A (Kelvin sign) becomes "k". None of "comb", "moringa", "basic" and "commercial" contains "k". None of them ends in "i", so a match can never use the "i" from U+0130, because U+0307 always follows it.
- Startup (`main.py:13-18`): loading `.env` and refusing to start without `GOOGLE_API_KEY`. This is process start-up and environment I/O.
- The web app and its CORS policy (`main.py:21-36`). This is HTTP framework configuration. The origin list is static data with no logic.
- Tool registration and the agent (`main.py:39`, `49`, `60-63`): the `@tool` decorator, `ChatGoogleGenerativeAI` and `create_react_agent`. These are foreign library calls. The tool-calling loop runs inside LangGraph and an external model.
- The `/api/chat` handler (`main.py:66-78`). It passes the message to the external agent and returns the content of the last message. Nothing about the reply can be stated without modelling the language model.
