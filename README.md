# Self-reflecting entity extraction and the Hacker News fetcher, in Dafny

This project models the two pieces of the repository's own logic that sit
between the pipeline framework's prebuilt components:

- **Agentswithloops.py**: the `EntitiesValidator` component, the two-branch
  prompt template it feeds, and the prompt builder → LLM → validator cycle
  that the pipeline repeats under `max_loops_allowed=10`. The validator
  accepts a reply when it contains the terminator `DONE` and then deletes
  *every* occurrence (Python's `str.replace`). A reply without it is sent
  back to the prompt builder unchanged.
- **Newswithbranching.py**: the `Greeter` component and
  `HackernewsNewestFetcher.run`. The fetcher walks the first `top_k`
  story ids and builds a list of documents. A post with a `url` is fetched
  and converted, and the first document is kept. A post with only `text`
  becomes a titled document. Failures skip the post.

Files:

- `wrappers.dfy`: `Option` and `Result`.
- `text.dfy` (module `Text`): the two Python string operations the
  validator calls, `in` and `replace(p, '')`. Beside them are reference
  definitions of `count`, `split` and `join`, which the validator does not
  call; they serve only to state what the deletion does. All scan left to
  right for non-overlapping occurrences. Lemmas tie them together: the
  substring test agrees with the count, deletion length equals the text
  length minus 4 per occurrence, and split/join round-trips.
- `agents.dfy` (module `Agents`): the validator as a function returning the
  component's output dictionary, the template as `Compose`, and the
  reflection cycle as the method `Reflect`. The LLM is an oracle there,
  given as the sequence of reply lists it returns.
- `news.dfy` (module `News`): `Greet`, the per-post decision `PostStep`,
  the specification `Collect` of the article list, and the method
  `FetchNewest`, a loop that mirrors `run` and is proved equal to `Collect`.

The code removes every `DONE`, not only the first one. The model follows
the code. Removing the terminator can create a new one: the accepted text
of `DODONENE` is `DONE` (`Agents.AcceptedTextMayContainDone`). So the
model proves that each piece between removed terminators is free of it
(`Text.PiecesAreFree`), and does not claim the same of the whole result.

## Model

| member | source | states |
|---|---|---|
| `Text.CountPositiveIffContains` | Agentswithloops.py:24-25 | the left-to-right occurrence count is positive exactly when `'DONE' in reply` holds |
| `Text.RemoveAllLength` | Agentswithloops.py:25 | `replace(p, '')` shortens the text by `len(p)` for each non-overlapping occurrence |
| `Text.SplitLength` | Agentswithloops.py:25 | splitting at the occurrences gives one more piece than there are occurrences |
| `Text.JoinSplit` | Agentswithloops.py:25 | joining the pieces with the terminator restores the reply, so nothing but the terminators is deleted |
| `Text.ConcatSplit` | Agentswithloops.py:25 | deleting every occurrence equals concatenating the pieces between them |
| `Text.PiecesAreFree` | Agentswithloops.py:25 | no piece between deleted occurrences contains the terminator |
| `Agents.Validate` | Agentswithloops.py:20-28 | exactly one output key; `entities` iff the first reply contains `DONE`; on accept the text is the pieces between terminators, strictly shorter by 4 per occurrence; on reject `entities_to_validate` is the first reply unchanged |
| `Agents.LaterRepliesIgnored` | Agentswithloops.py:23-24 | only `replies[0]` decides the output; later replies change nothing |
| `Agents.AcceptedTextMayContainDone` | Agentswithloops.py:25 | accepting `DODONENE` yields `DONE`, so accepted text can still contain the terminator |
| `Agents.Compose` | Agentswithloops.py:33-61 | the revision branch is chosen iff `entities_to_validate` is present and non-empty; both branches embed `text`; the revision branch shows one character of the candidate |
| `Agents.RevisionShowsFirstCharacterOnly` | Agentswithloops.py:38 | two different JSON candidates with the same first character give the same revision prompt, which shows only `{` |
| `Agents.ComposeIntended` | Agentswithloops.py:34-38 | the same branch choice, with the whole previous candidate embedded |
| `Agents.IntendedRevisionKeepsCandidate` | Agentswithloops.py:37-38 | with the whole candidate embedded, distinct candidates give distinct revision prompts |
| `Agents.SameBranchAsIntended` | Agentswithloops.py:34-48 | the as-written and the intended template pick the same branch and embed the same text |
| `Agents.Reflect` | Agentswithloops.py:65-75 | one LLM call per round and at most `maxLoops` calls; the first prompt is the initial extraction; each later prompt is built from the previous rejected reply; the run accepts at the first reply containing `DONE`, with the validator's `entities`, and reaches the bound only if no reply did |
| `Agents.ReflectWithSourceBound` | Agentswithloops.py:68 | with `maxLoops` set to the source's constant 10, the model makes at most 10 LLM calls |
| `News.Greet` | Newswithbranching.py:95-99 | the single key `greeting` holds `"Hello "` followed by the name, which can be read back from it |
| `News.GreetInjective` | Newswithbranching.py:98-99 | different names give different greetings |
| `News.SliceStop` | Newswithbranching.py:121 | Python's slice rule for `[0:top_k]`: `min(top_k, len)` for a non-negative `top_k`, `max(len + top_k, 0)` for a negative one |
| `News.Examined` | Newswithbranching.py:121 | the examined ids are a prefix of the received ids, in order, of length `min(top_k, len(ids))` for a non-negative `top_k` |
| `News.FetchNewest` | Newswithbranching.py:115-138 | the loop returns exactly the articles (or the exception) that `Collect` gives for the ids of `ids[0:top_k]`, in the order received |
| `News.RaisedStays` | Newswithbranching.py:121-125 | once a post raised, later ids do not change the outcome |
| `News.CollectRaisesIffNullPost` | Newswithbranching.py:125 | the run raises exactly when an examined post's JSON is `null` (the membership test fails outside the handlers) |
| `News.CollectOrigins` | Newswithbranching.py:121-138 | each article comes from one examined post, at most one per post, in the order of the ids; every post whose step appends is represented |
| `News.CollectBound` | Newswithbranching.py:117-138 | there are no more articles than examined ids |
| `News.FetchBound` | Newswithbranching.py:121 | for a non-negative `top_k`, at most `min(top_k, len(ids))` articles |
| `News.UrlTakesPrecedence` | Newswithbranching.py:125-133 | a post with a `url` takes the fetch branch whatever its `text`; it is kept iff the conversion succeeds with at least one document, and the article kept is the first converted document |
| `News.TextPostBecomesDocument` | Newswithbranching.py:133-137 | a post with `text` and no `url` is kept iff it has a title, as the document of its text with meta `{"title": title}` |
| `News.BarePostSkipped` | Newswithbranching.py:125-137 | a post with neither `url` nor `text` contributes nothing |

## Findings

| source | as written | input that shows it | evidently intended | confidence | as-written member | corrected member |
|---|---|---|---|---|---|---|
| Agentswithloops.py:38 | the revision prompt embeds `entities_to_validate[0]`, and the validator emits a `str`, so only its first character is shown | candidate `{"Person": []}` yields a revision prompt showing `{` | embed the whole previously extracted candidate | not executed; medium (assumes the framework passes the string through unwrapped) | `Agents.RevisionShowsFirstCharacterOnly` | `Agents.IntendedRevisionKeepsCandidate` |

`Agents.Reflect` records the prompts as written, through `Compose`. This
has no effect on which branch is chosen (`Agents.SameBranchAsIntended`).
The LLM oracle is a sequence of replies and does not depend on the prompt,
so the run's outcome is the same under either template.

## Left out

- Agents.Validate: requires a non-empty reply list. The source indexes `replies[0]`, which raises on an empty list, and the generator always returns at least one reply.
- Agents.Reflect: does not say what the framework does once the loop bound is exceeded. That behaviour lives inside the pipeline framework, so the model ends with `LoopLimitReached` and no payload. The exact counting of `max_loops_allowed` is the framework's and is taken as the parameter `maxLoops`.
- Agents.Reflect: the LLM is an oracle whose replies are given in advance, so a reply cannot depend on the prompt it answers.
- Agents.Compose: the exact Jinja rendering and whitespace of both template branches are not modelled, only the branch and the values it embeds.
- News.FetchNewest: the HTTP requests (`topstories.json`, `item/{id}.json`) and the fetch-and-convert pipeline are oracles passed as functions. The same URL therefore always converts the same way. Network exceptions from `requests.get` outside the handlers are not modelled.
- News.FetchNewest: posts are reduced to their `url`, `text` and `title` fields. A `text` or `title` that is not a string is not modelled.
- News.FetchNewest: a `url` key whose value is JSON `null` cannot be represented. The source takes the fetch branch for it (the key is present) and skips the post; the model's `url: None` would take the text branch instead.
- News.FetchNewest: `itemOf` is a function of the id, so an id repeated in `topstories.json` always yields the same post, whereas two real requests could answer differently.
- Printing of the "Reflecting on entities" and "Can't download" diagnostics, colours and pipeline diagrams.
- The credential checks and `load_dotenv`, which are configuration.
- RAGpipeline.py, IndexingPipeline.py and the retrieval pipelines in Newswithbranching.py, which only connect framework components. Embeddings and similarity ranking are floating point and belong to the framework.
- The summarizer pipelines that consume the fetcher's articles, which are framework wiring and an LLM call.
