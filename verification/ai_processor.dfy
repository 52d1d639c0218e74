/**
 * The pure parts of the LLM fallback (`AIProcessor`): counting the gaps
 * of a parsed record, the empty record, the prompt, and turning the
 * model's reply into a record. The model and `json.loads` are oracles.
 */
module AiProcessor {
  import opened Wrappers
  import opened Text
  import opened Json

  // ------------------------------------------------------------------
  // Counting gaps
  // ------------------------------------------------------------------

  /**
   * `_count_nulls`: `None` and an empty dict or list count one each, a
   * non-empty container the sum over its values, any other scalar nothing.
   */
  function CountNulls(v: Value): nat
    decreases v, 1
  {
    match v
    case Null => 1
    case Obj(fields) => if |fields| == 0 then 1 else FieldsNulls(v, fields)
    case Arr(items) => if |items| == 0 then 1 else ItemsNulls(v, items)
    case _ => 0
  }

  /** The sum over the values of a dict that is part of `parent`. */
  function FieldsNulls(parent: Value, fields: Fields): nat
    requires forall i :: 0 <= i < |fields| ==> fields[i].1 < parent
    decreases parent, 0, |fields|
  {
    if |fields| == 0 then 0
    else CountNulls(fields[0].1) + FieldsNulls(parent, fields[1..])
  }

  /** The sum over the items of a list that is part of `parent`. */
  function ItemsNulls(parent: Value, items: seq<Value>): nat
    requires forall i :: 0 <= i < |items| ==> items[i] < parent
    decreases parent, 0, |items|
  {
    if |items| == 0 then 0
    else CountNulls(items[0]) + ItemsNulls(parent, items[1..])
  }

  /** A value with no `None` and no empty container at any depth. */
  predicate Complete(v: Value)
    decreases v
  {
    match v
    case Null => false
    case Obj(fields) => |fields| > 0 && forall i :: 0 <= i < |fields| ==> Complete(fields[i].1)
    case Arr(items) => |items| > 0 && forall i :: 0 <= i < |items| ==> Complete(items[i])
    case _ => true
  }

  // ------------------------------------------------------------------
  // The empty record
  // ------------------------------------------------------------------

  /** The top-level keys of the record the model is asked for. */
  function RecordKeys(): seq<string> {
    ["effective_date", "penalty_interest", "deposits", "mortgages", "vehicle_loans", "overdrafts", "credit_cards"]
  }

  function EmptyDeposits(): Value {
    Obj([("veltureikningar", Obj([])),
         ("sparireikningar", Obj([("indexed", Obj([])), ("unindexed", Obj([])), ("other", Obj([]))])),
         ("foreign_currency", Obj([]))])
  }

  function EmptyMortgages(): Value {
    Obj([("indexed", Obj([])), ("unindexed", Obj([]))])
  }

  /** `_get_empty_structure`: every top-level key, with no value filled in. */
  function EmptyStructure(): (r: Value)
    ensures r.Obj? && Keys(r.fields) == RecordKeys()
  {
    Obj([("effective_date", Null), ("penalty_interest", Null),
         ("deposits", EmptyDeposits()), ("mortgages", EmptyMortgages()),
         ("vehicle_loans", Obj([])), ("overdrafts", Obj([])), ("credit_cards", Obj([]))])
  }

  lemma EmptyDepositsNulls()
    ensures CountNulls(EmptyDeposits()) == 5
  {
    var spar := Obj([("indexed", Obj([])), ("unindexed", Obj([])), ("other", Obj([]))]);
    assert CountNulls(spar) == 3;
  }

  lemma EmptyMortgagesNulls()
    ensures CountNulls(EmptyMortgages()) == 2
  {
  }

  /** The empty record has twelve gaps: two `None` leaves and ten empty dicts. */
  lemma EmptyStructureNulls()
    ensures CountNulls(EmptyStructure()) == 12
    ensures !Complete(EmptyStructure())
  {
    EmptyDepositsNulls();
    EmptyMortgagesNulls();
    CountNullsZero(EmptyStructure());
  }

  // ------------------------------------------------------------------
  // Code fences around the reply
  // ------------------------------------------------------------------

  const JsonFence := "```json"
  const Fence := "```"

  /**
   * The reply text after the markdown fences are cut away: the text
   * between the first "```json" and the next "```" if there is one,
   * otherwise the text between the first two "```", otherwise the text
   * itself. Each cut is two `split`s, as in the source.
   */
  function Unfence(t: string): string {
    if Contains(t, JsonFence) then Strip(Before(Before(After(t, JsonFence), JsonFence), Fence))
    else if Contains(t, Fence) then Strip(Before(Before(After(t, Fence), Fence), Fence))
    else t
  }

  predicate NoTick(s: string) {
    '`' !in s
  }

  /** A fence cannot start at a character other than a backtick. */
  lemma TickAt(s: string, sep: string, j: int)
    requires |sep| > 0 && sep[0] == '`' && 0 <= j < |s| && s[j] != '`'
    ensures !OccursAt(s, sep, j)
  {
    if j + |sep| <= |s| {
      assert s[j..j + |sep|][0] != sep[0];
    }
  }

  /** A string without a backtick holds no fence. */
  lemma NoTickNoFence(s: string, sep: string)
    requires |sep| > 0 && sep[0] == '`' && NoTick(s)
    ensures !Contains(s, sep)
  {
    forall j | 0 <= j < |s|
      ensures !OccursAt(s, sep, j)
    {
      TickAt(s, sep, j);
    }
  }

  /** A fence preceded by backtick-free text is found right after that text. */
  lemma FenceAfter(pre: string, sep: string, rest: string)
    requires |sep| > 0 && sep[0] == '`' && NoTick(pre)
    ensures Contains(pre + sep + rest, sep)
    ensures Find(pre + sep + rest, sep) == Some(|pre|)
    ensures After(pre + sep + rest, sep) == rest
  {
    var t := pre + sep + rest;
    assert t[|pre|..|pre| + |sep|] == sep;
    assert OccursAt(t, sep, |pre|);
    forall j | 0 <= j < |pre|
      ensures !OccursAt(t, sep, j)
    {
      assert t[j] == pre[j];
      TickAt(t, sep, j);
    }
    var k := Find(t, sep).value;
    assert k == |pre|;
    assert t[|pre| + |sep|..] == rest;
  }

  /** `Before` cuts at an occurrence with none before it. */
  lemma BeforeAt(s: string, sep: string, n: nat)
    requires |sep| > 0 && OccursAt(s, sep, n)
    requires forall j :: 0 <= j < n ==> !OccursAt(s, sep, j)
    ensures Before(s, sep) == s[..n]
  {
    var k := Find(s, sep).value;
    assert k == n;
  }

  /** The closing fence of a "```json" block ends the body when the body holds no backtick. */
  lemma CloseJsonFence(body: string, post: string)
    requires NoTick(body)
    requires |post| == 0 || post[0] != '`'
    ensures Before(Before(body + Fence + post, JsonFence), Fence) == body
  {
    var x := body + Fence + post;
    var y := Before(x, JsonFence);
    assert x[..|body|] == body;
    forall j | 0 <= j < |body|
      ensures !OccursAt(x, JsonFence, j) && !OccursAt(x, Fence, j)
    {
      assert x[j] == body[j];
      TickAt(x, JsonFence, j);
      TickAt(x, Fence, j);
    }
    if Contains(x, JsonFence) {
      var i := Find(x, JsonFence).value;
      assert y == x[..i];
      assert i >= |body|;
      assert x[i..i + 7] == JsonFence;
      assert x[i + 1] == x[i..i + 7][1] && x[i + 2] == x[i..i + 7][2];
      assert |body| + 3 < |x| ==> x[|body| + 3] == post[0];
      assert i != |body| + 1 && i != |body| + 2;
      if i == |body| {
        assert y == body;
        NoTickNoFence(body, Fence);
      } else {
        assert y[|body|..|body| + 3] == x[|body|..|body| + 3] == Fence;
        forall j | 0 <= j < |body|
          ensures !OccursAt(y, Fence, j)
        {
          TickAt(y, Fence, j);
        }
        BeforeAt(y, Fence, |body|);
      }
    } else {
      assert y == x;
      assert x[|body|..|body| + 3] == Fence;
      BeforeAt(x, Fence, |body|);
    }
  }

  /** "```json" holds "```", so text without "```" holds neither fence. */
  lemma JsonFenceHoldsFence(t: string)
    ensures Contains(t, JsonFence) ==> Contains(t, Fence)
  {
    assert OccursAt(JsonFence, Fence, 0);
    if Contains(t, JsonFence) {
      ContainsTransitive(t, JsonFence, Fence);
    }
  }

  /** A reply without any fence is used as it is. */
  lemma UnfenceNoFence(t: string)
    requires !Contains(t, Fence)
    ensures Unfence(t) == t
  {
    JsonFenceHoldsFence(t);
  }

  /**
   * A "```json" block is replaced by its stripped body, whatever text
   * precedes or follows the block.
   */
  lemma UnfenceJsonBlock(pre: string, body: string, post: string)
    requires NoTick(pre) && NoTick(body)
    requires |post| == 0 || post[0] != '`'
    ensures Unfence(pre + JsonFence + body + Fence + post) == Strip(body)
  {
    var t := pre + JsonFence + body + Fence + post;
    assert t == pre + JsonFence + (body + Fence + post);
    FenceAfter(pre, JsonFence, body + Fence + post);
    CloseJsonFence(body, post);
  }

  /**
   * Without "```json" anywhere, the text between the first two "```" is
   * used, stripped.
   */
  lemma UnfencePlainBlock(pre: string, body: string, post: string)
    requires NoTick(pre) && NoTick(body)
    requires !Contains(pre + Fence + body + Fence + post, JsonFence)
    ensures Unfence(pre + Fence + body + Fence + post) == Strip(body)
  {
    var t := pre + Fence + body + Fence + post;
    assert t == pre + Fence + (body + Fence + post);
    FenceAfter(pre, Fence, body + Fence + post);
    FenceAfter(body, Fence, post);
    assert (body + Fence + post)[..|body|] == body;
    NoTickNoFence(body, Fence);
  }

  // ------------------------------------------------------------------
  // The prompt
  // ------------------------------------------------------------------

  /** How much of the document text the prompt carries. */
  const PromptTextLimit := 4000

  /** `s[:n]`. */
  function Truncate(s: string, n: nat): (r: string)
    ensures |r| == if |s| <= n then |s| else n
    ensures StartsWith(s, r)
  {
    if |s| <= n then s else s[..n]
  }

  /** The part of the prompt before the document text. */
  function PromptHead(bankName: string, sourceType: string): string {
    "Extract interest rate data from this " + sourceType + " text from " + bankName + ".\n\nRAW TEXT:\n"
  }

  /** The number of lines after the document text. */
  const PromptTailLength := 66

  /**
   * Line `i` of the instructions after the document text: the record
   * layout and the glossary of Icelandic terms.
   */
  function PromptTailLine(i: nat): string
    requires i < PromptTailLength
  {
    match i
    case 0 => ""
    case 1 => ""
    case 2 => "Return ONLY valid JSON in this exact structure (use null for missing values, NEVER leave fields empty):"
    case 3 => ""
    case 4 => "{"
    case 5 => "  \"effective_date\": \"YYYY-MM-DD or null\","
    case 6 => "  \"penalty_interest\": float or null,"
    case 7 => "  \"deposits\": {"
    case 8 => "    \"veltureikningar\": {"
    case 9 => "      \"almennir\": float or null,"
    case 10 => "      \"ungmenna\": float or null"
    case 11 => "    },"
    case 12 => "    \"sparireikningar\": {"
    case 13 => "      \"indexed\": {"
    case 14 => "        \"regular\": float or null,"
    case 15 => "        \"children\": float or null"
    case 16 => "      },"
    case 17 => "      \"unindexed\": {"
    case 18 => "        \"regular\": float or null,"
    case 19 => "        \"children\": float or null"
    case 20 => "      },"
    case 21 => "      \"ibudasparnadur\": float or null,"
    case 22 => "      \"other\": {}"
    case 23 => "    },"
    case 24 => "    \"foreign_currency\": {}"
    case 25 => "  },"
    case 26 => "  \"mortgages\": {"
    case 27 => "    \"indexed\": {"
    case 28 => "      \"variable_ibudalan_i\": float or null,"
    case 29 => "      \"variable_ibudalan_ii\": float or null,"
    case 30 => "      \"variable_ibudalan_iii\": float or null,"
    case 31 => "      \"fixed_3yr_ibudalan_i\": float or null,"
    case 32 => "      \"fixed_3yr_ibudalan_ii\": float or null"
    case 33 => "    },"
    case 34 => "    \"unindexed\": {"
    case 35 => "      \"variable_ibudalan_i\": float or null,"
    case 36 => "      \"variable_ibudalan_ii\": float or null"
    case 37 => "    }"
    case 38 => "  },"
    case 39 => "  \"vehicle_loans\": {"
    case 40 => "    \"kjor_electric_50_under\": float or null,"
    case 41 => "    \"kjor_electric_50_60\": float or null"
    case 42 => "  },"
    case 43 => "  \"overdrafts\": {"
    case 44 => "    \"yfirdrattarlan_einstaklinga\": float or null,"
    case 45 => "    \"framfaerslulán\": float or null"
    case 46 => "  },"
    case 47 => "  \"credit_cards\": {"
    case 48 => "    \"greidsludreifing\": float or null"
    case 49 => "  }"
    case 50 => "}"
    case 51 => ""
    case 52 => "IMPORTANT:"
    case 53 => "- Extract interest rates as percentages (e.g., 8.6 for 8.6%)"
    case 54 => "- Use null for missing values, not 0"
    case 55 => "- Parse Icelandic dates to YYYY-MM-DD format"
    case 56 => "- Common Icelandic terms:"
    case 57 => "  * \"vextir\" = interest"
    case 58 => "  * \"íbúðalán\" = mortgage"
    case 59 => "  * \"ökutækjalán\" = vehicle loan"
    case 60 => "  * \"yfirdráttur\" = overdraft"
    case 61 => "  * \"tryggð\" or \"verðtryggt\" = indexed"
    case 62 => "  * \"óverðtryggt\" = unindexed"
    case 63 => "  * \"bundnir\" = fixed rate"
    case 64 => "  * \"breytilegir\" = variable rate"
    case _ => ""
  }

  /** Lines `i` onward, joined by line breaks (`"\n".join`). */
  function PromptTailFrom(i: nat): string
    requires i < PromptTailLength
    decreases PromptTailLength - i
  {
    if i + 1 == PromptTailLength then PromptTailLine(i)
    else PromptTailLine(i) + "\n" + PromptTailFrom(i + 1)
  }

  function PromptTail(): string {
    PromptTailFrom(0)
  }

  /** The document text, cut to the limit, between a head and a tail. */
  function Splice(head: string, text: string, tail: string): (r: string)
    ensures StartsWith(r, head) && EndsWith(r, tail)
    ensures OccursAt(r, Truncate(text, PromptTextLimit), |head|)
    ensures |r| <= |head| + PromptTextLimit + |tail|
  {
    var body := Truncate(text, PromptTextLimit);
    assert (head + body + tail)[|head|..|head| + |body|] == body;
    head + body + tail
  }

  /** `_create_parsing_prompt`: the document text is cut to its first 4000 characters. */
  function Prompt(rawText: string, bankName: string, sourceType: string): (r: string)
    ensures StartsWith(r, PromptHead(bankName, sourceType)) && EndsWith(r, PromptTail())
    ensures OccursAt(r, Truncate(rawText, PromptTextLimit), |PromptHead(bankName, sourceType)|)
    ensures |r| <= |PromptHead(bankName, sourceType)| + PromptTextLimit + |PromptTail()|
  {
    Splice(PromptHead(bankName, sourceType), rawText, PromptTail())
  }

  /** Only the first 4000 characters of the text reach the model. */
  lemma PromptIgnoresRest(a: string, b: string, bankName: string, sourceType: string)
    requires |a| >= PromptTextLimit && |b| >= PromptTextLimit
    requires a[..PromptTextLimit] == b[..PromptTextLimit]
    ensures Prompt(a, bankName, sourceType) == Prompt(b, bankName, sourceType)
  {
    SpliceIgnoresRest(PromptHead(bankName, sourceType), a, b, PromptTail());
  }

  lemma SpliceIgnoresRest(head: string, a: string, b: string, tail: string)
    requires |a| >= PromptTextLimit && |b| >= PromptTextLimit
    requires a[..PromptTextLimit] == b[..PromptTextLimit]
    ensures Splice(head, a, tail) == Splice(head, b, tail)
  {
    assert Truncate(a, PromptTextLimit) == Truncate(b, PromptTextLimit);
  }

  // ------------------------------------------------------------------
  // Asking the model
  // ------------------------------------------------------------------

  /**
   * `parse_bank_data`. `ask` is the chat completion for a prompt (None
   * when the provider raises or the reply has no text) and `decode` is
   * `json.loads` (None on a decode error). Any failure gives the empty
   * record; a decoded reply is returned without checking its shape.
   */
  function ParseBankData(rawText: string, bankName: string, sourceType: string,
                         ask: string -> Option<string>, decode: string -> Option<Value>): (r: Value)
    ensures ask(Prompt(rawText, bankName, sourceType)).None? ==> r == EmptyStructure()
    ensures r == EmptyStructure() || exists reply :: ask(Prompt(rawText, bankName, sourceType)) == Some(reply) && decode(Unfence(Strip(reply))) == Some(r)
    ensures forall reply, v :: ask(Prompt(rawText, bankName, sourceType)) == Some(reply) && decode(Unfence(Strip(reply))) == Some(v) ==> r == v
  {
    var prompt := Prompt(rawText, bankName, sourceType);
    match ask(prompt)
    case None => EmptyStructure()
    case Some(reply) =>
      match decode(Unfence(Strip(reply)))
      case None => EmptyStructure()
      case Some(v) => assert ask(prompt) == Some(reply) && decode(Unfence(Strip(reply))) == Some(v); v
  }

  /** A reply that does not decode gives the empty record. */
  lemma ParseBankDataUndecodable(rawText: string, bankName: string, sourceType: string,
                                 ask: string -> Option<string>, decode: string -> Option<Value>, reply: string)
    requires ask(Prompt(rawText, bankName, sourceType)) == Some(reply)
    requires decode(Unfence(Strip(reply))).None?
    ensures ParseBankData(rawText, bankName, sourceType, ask, decode) == EmptyStructure()
    ensures CountNulls(ParseBankData(rawText, bankName, sourceType, ask, decode)) == 12
  {
    EmptyStructureNulls();
  }

  /** A reply wrapped in a "```json" block is decoded from the block's body alone. */
  lemma ParseBankDataFenced(rawText: string, bankName: string, sourceType: string,
                            ask: string -> Option<string>, decode: string -> Option<Value>,
                            reply: string, pre: string, body: string, post: string)
    requires ask(Prompt(rawText, bankName, sourceType)) == Some(reply)
    requires Strip(reply) == pre + JsonFence + body + Fence + post
    requires NoTick(pre) && NoTick(body) && (|post| == 0 || post[0] != '`')
    ensures ParseBankData(rawText, bankName, sourceType, ask, decode)
            == (match decode(Strip(body)) case Some(v) => v case None => EmptyStructure())
  {
    UnfenceJsonBlock(pre, body, post);
  }

  /** The record does not depend on the text past its first 4000 characters. */
  lemma ParseBankDataIgnoresRest(a: string, b: string, bankName: string, sourceType: string,
                                 ask: string -> Option<string>, decode: string -> Option<Value>)
    requires |a| >= PromptTextLimit && |b| >= PromptTextLimit
    requires a[..PromptTextLimit] == b[..PromptTextLimit]
    ensures ParseBankData(a, bankName, sourceType, ask, decode) == ParseBankData(b, bankName, sourceType, ask, decode)
  {
    PromptIgnoresRest(a, b, bankName, sourceType);
  }

  /** `enhance_parsed_data`: the gaps are counted, and the record is returned as it came. */
  function Enhance(data: Value): (r: Value)
    ensures r == data
  {
    if CountNulls(data) == 0 then data else data
  }
  /** Nothing is counted exactly when nothing is missing at any depth. */
  lemma {:induction false} CountNullsZero(v: Value)
    ensures CountNulls(v) == 0 <==> Complete(v)
    decreases v, 1
  {
    match v
    case Obj(fields) =>
      if |fields| > 0 {
        FieldsNullsZero(v, fields);
      }
    case Arr(items) =>
      if |items| > 0 {
        ItemsNullsZero(v, items);
      }
    case _ =>
  }

  lemma {:induction false} FieldsNullsZero(parent: Value, fields: Fields)
    requires forall i :: 0 <= i < |fields| ==> fields[i].1 < parent
    ensures FieldsNulls(parent, fields) == 0 <==> forall i :: 0 <= i < |fields| ==> Complete(fields[i].1)
    decreases parent, 0, |fields|
  {
    if |fields| > 0 {
      CountNullsZero(fields[0].1);
      FieldsNullsZero(parent, fields[1..]);
      assert forall i :: 1 <= i < |fields| ==> fields[i] == fields[1..][i - 1];
    }
  }

  lemma {:induction false} ItemsNullsZero(parent: Value, items: seq<Value>)
    requires forall i :: 0 <= i < |items| ==> items[i] < parent
    ensures ItemsNulls(parent, items) == 0 <==> forall i :: 0 <= i < |items| ==> Complete(items[i])
    decreases parent, 0, |items|
  {
    if |items| > 0 {
      CountNullsZero(items[0]);
      ItemsNullsZero(parent, items[1..]);
      assert forall i :: 1 <= i < |items| ==> items[i] == items[1..][i - 1];
    }
  }
}
