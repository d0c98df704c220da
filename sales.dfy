/** The sales-file parser and summary of exam-solutions/assignment2/file_handler.py. The file is given as the
    sequence of its lines; each line is stripped, blank lines are skipped (they still count for line numbers),
    and every other line must be `name,quantity,price`. */
module Sales {
  import opened Wrappers
  import opened Text
  import opened Numerals

  /** One `(product_name, quantity, price)` tuple. */
  datatype Sale = Sale(name: string, quantity: int, price: real)

  /** Why a `ValueError` was raised inside the `try` around the field conversions. */
  datatype Reason =
    | NotAnInteger(text: string)   // `int(...)` refused the quantity field
    | NotANumber(text: string)     // `float(...)` refused the price field
    | EmptyName
    | NegativeQuantity
    | NegativePrice

  datatype Fault =
    | WrongFieldCount(got: nat)    // "Expected 3 values, got n"
    | InvalidFormat(reason: Reason)

  /** The error raised for the line numbered `line` (counting from 1). */
  datatype LineError = LineError(line: nat, fault: Fault)

  /** What the loop body does with one line. */
  datatype LineResult = Blank | Record(sale: Sale) | Bad(fault: Fault)

  /** `calculate_total(quantity, price)`. */
  function CalculateTotal(quantity: int, price: real): (total: real)
    ensures quantity >= 0 && price >= 0.0 ==> total >= 0.0
    ensures quantity == 0 || price == 0.0 ==> total == 0.0
    ensures quantity == 1 ==> total == price
  {
    quantity as real * price
  }

  /** What every accepted record satisfies. */
  predicate ValidSale(s: Sale)
  {
    s.name != [] && Strip(s.name) == s.name && s.quantity >= 0 && s.price >= 0.0
  }

  /** The body of the `for line in file` loop: strip, skip when blank, split on ',', and check there are three
      fields. */
  function ParseLine(line: string): (r: LineResult)
    ensures r.Blank? <==> AllSpace(line)
    ensures (r.Bad? && r.fault.WrongFieldCount?) <==> !AllSpace(line) && |Split(Strip(line), ',')| != 3
    ensures r.Bad? && r.fault.WrongFieldCount? ==> r.fault.got == Count(Strip(line), ',') + 1
    ensures r.Record? ==> ValidSale(r.sale)
  {
    var text := Strip(line);
    StripEmptyIff(line);
    if text == [] then Blank
    else
      var parts := Split(text, ',');
      if |parts| != 3 then Bad(WrongFieldCount(|parts|))
      else ParseFields(parts[0], parts[1], parts[2])
  }

  /** The `try` block of the loop: convert the quantity, then the price, and only then check the name, the
      quantity and the price, in that order. */
  function ParseFields(nameField: string, quantityField: string, priceField: string): (r: LineResult)
    ensures r.Record? || (r.Bad? && r.fault.InvalidFormat?)
    ensures r.Record? ==> ValidSale(r.sale)
    ensures var q, p := ParseInt(Strip(quantityField)), ParseDecimal(Strip(priceField));
      r.Record? <==> q.Some? && p.Some? && Strip(nameField) != [] && q.value >= 0 && p.value >= 0.0
    ensures r.Record? ==> r.sale == Sale(Strip(nameField), ParseInt(Strip(quantityField)).value, ParseDecimal(Strip(priceField)).value)
  {
    var name := Strip(nameField);
    var quantityText := Strip(quantityField);
    var priceText := Strip(priceField);
    StripIdempotent(nameField);
    match ParseInt(quantityText)
    case None => Bad(InvalidFormat(NotAnInteger(quantityText)))
    case Some(quantity) =>
      match ParseDecimal(priceText)
      case None => Bad(InvalidFormat(NotANumber(priceText)))
      case Some(price) =>
        if name == [] then Bad(InvalidFormat(EmptyName))
        else if quantity < 0 then Bad(InvalidFormat(NegativeQuantity))
        else if price < 0.0 then Bad(InvalidFormat(NegativePrice))
        else Record(Sale(name, quantity, price))
  }

  /** Which check refuses three fields: the quantity is converted first, then the price, then the name, the
      quantity and the price are checked, and the first failure is the one reported. */
  lemma FieldRefusals(nameField: string, quantityField: string, priceField: string)
    ensures var r, q, p := ParseFields(nameField, quantityField, priceField), ParseInt(Strip(quantityField)), ParseDecimal(Strip(priceField));
      && (r == Bad(InvalidFormat(NotAnInteger(Strip(quantityField)))) <==> q.None?)
      && (r == Bad(InvalidFormat(NotANumber(Strip(priceField)))) <==> q.Some? && p.None?)
      && (r == Bad(InvalidFormat(EmptyName)) <==> q.Some? && p.Some? && Strip(nameField) == [])
      && (r == Bad(InvalidFormat(NegativeQuantity)) <==> q.Some? && p.Some? && Strip(nameField) != [] && q.value < 0)
      && (r == Bad(InvalidFormat(NegativePrice)) <==>
            q.Some? && p.Some? && Strip(nameField) != [] && q.value >= 0 && p.value < 0.0)
  {
  }

  /** A non-blank line with three fields is a record exactly when its quantity and price convert, its name is
      not empty and neither number is negative; the record holds the stripped name and the converted numbers. */
  lemma LineRecord(line: string)
    requires !AllSpace(line) && |Split(Strip(line), ',')| == 3
    ensures var parts := Split(Strip(line), ',');
      var q, p := ParseInt(Strip(parts[1])), ParseDecimal(Strip(parts[2]));
      && (ParseLine(line).Record? <==> q.Some? && p.Some? && Strip(parts[0]) != [] && q.value >= 0 && p.value >= 0.0)
      && (ParseLine(line).Record? ==> ParseLine(line).sale == Sale(Strip(parts[0]), q.value, p.value))
  {
    ThreeFieldLine(line);
  }

  /** The text a price `whole.fraction` is written as; an empty fraction is written without the point. */
  function PriceText(whole: nat, fraction: string): string
    requires AllDigits(fraction)
  {
    if fraction == [] then IntToString(whole) else IntToString(whole) + "." + fraction
  }

  /** A well-formed line as a file would hold it, with the price written as `whole.fraction`. */
  function SaleLine(name: string, quantity: nat, whole: nat, fraction: string): string
    requires AllDigits(fraction)
  {
    name + "," + IntToString(quantity) + "," + PriceText(whole, fraction)
  }

  /** Three comma-free fields joined by commas split back into those fields. */
  lemma SplitThree(a: string, b: string, c: string)
    requires ',' !in a && ',' !in b && ',' !in c
    ensures Split(a + "," + b + "," + c, ',') == [a, b, c]
  {
    assert a + "," + b + "," + c == a + [','] + (b + [','] + c);
    SplitWithoutSeparator(c, ',');
    SplitAtSeparator(b, c, ',');
    SplitAtSeparator(a, b + [','] + c, ',');
  }

  /** What `str(n)` of a natural number looks like to the parser: no comma, nothing to strip, and both `int`
      and `float` give `n` back. */
  lemma NumeralField(n: nat)
    ensures var t := IntToString(n);
      && t != [] && ',' !in t && Strip(t) == t && !IsSpace(t[0]) && !IsSpace(t[|t| - 1])
      && ParseInt(t) == Some(n) && ParseDecimal(t) == Some(n as real)
  {
    var t := IntToString(n);
    assert t == NatToString(n);
    assert forall k :: 0 <= k < |t| ==> IsDigit(t[k]);
    assert ',' !in t;
    assert !IsSpace(t[0]) && !IsSpace(t[|t| - 1]);
    StripOfTrimmed(t);
    ParseIntRoundTrip(n);
    ParseDecimalExtendsParseInt(t);
  }

  /** A field the parser sees unchanged: not empty, without a comma, and with nothing to strip. */
  predicate PlainField(t: string)
  {
    t != [] && ',' !in t && !IsSpace(t[0]) && !IsSpace(t[|t| - 1]) && Strip(t) == t
  }

  /** Digits, a point and more digits make a plain field. */
  lemma PointedNumeral(w: string, f: string)
    requires w != [] && AllDigits(w) && f != [] && AllDigits(f)
    ensures PlainField(w + "." + f)
  {
    var t := w + "." + f;
    assert forall k :: 0 <= k < |t| ==> t[k] == '.' || IsDigit(t[k]) by {
      assert forall k :: 0 <= k < |w| ==> t[k] == w[k];
      assert forall k :: |w| + 1 <= k < |t| ==> t[k] == f[k - |w| - 1];
    }
    assert !IsSpace(t[0]) && !IsSpace(t[|t| - 1]);
    StripOfTrimmed(t);
  }

  /** What a written price looks like to the parser: no comma, nothing to strip, and `float` gives its value. */
  lemma PriceField(whole: nat, fraction: string)
    requires AllDigits(fraction)
    ensures PlainField(PriceText(whole, fraction))
    ensures ParseDecimal(PriceText(whole, fraction)) == Some(NumeralValue(whole, fraction))
  {
    NumeralField(whole);
    if fraction != [] {
      assert IntToString(whole) == NatToString(whole);
      assert PriceText(whole, fraction) == IntToString(whole) + "." + fraction;
      PointedNumeral(NatToString(whole), fraction);
      ParseDecimalFraction(whole, fraction);
    } else {
      WholeNumeralValue(whole);
    }
  }

  /** A line written from a valid record (name without commas) parses back to that record. */
  lemma ParseSaleLine(name: string, quantity: nat, whole: nat, fraction: string)
    requires name != [] && Strip(name) == name && ',' !in name && AllDigits(fraction)
    ensures ParseLine(SaleLine(name, quantity, whole, fraction)) == Record(Sale(name, quantity, NumeralValue(whole, fraction)))
  {
    var q := IntToString(quantity);
    var p := PriceText(whole, fraction);
    var line := SaleLine(name, quantity, whole, fraction);
    assert PlainField(q) by { NumeralField(quantity); }
    PriceField(whole, fraction);
    assert line == name + "," + q + "," + p;
    PlainLine(name, q, p);
    ThreeFieldLine(line);
    WrittenFields(name, quantity, whole, fraction);
  }

  /** A name and two plain fields joined by commas make a non-blank line with nothing to strip and those three
      fields. */
  lemma PlainLine(name: string, q: string, p: string)
    requires name != [] && Strip(name) == name && ',' !in name && PlainField(q) && PlainField(p)
    ensures var line := name + "," + q + "," + p; var parts := Split(Strip(line), ',');
      && !AllSpace(line) && |parts| == 3 && parts[0] == name && parts[1] == q && parts[2] == p
  {
    var line := name + "," + q + "," + p;
    assert Strip(line) == line by {
      assert !IsSpace(line[0]) by { assert line[0] == name[0]; }
      assert !IsSpace(line[|line| - 1]) by { assert line[|line| - 1] == p[|p| - 1]; }
      StripOfTrimmed(line);
    }
    SplitThree(name, q, p);
    StripEmptyIff(line);
  }

  /** A non-blank line with three fields is decided by its fields. */
  lemma ThreeFieldLine(line: string)
    requires !AllSpace(line) && |Split(Strip(line), ',')| == 3
    ensures var parts := Split(Strip(line), ','); ParseLine(line) == ParseFields(parts[0], parts[1], parts[2])
  {
    StripEmptyIff(line);
  }

  /** The fields of a line written from a valid record are converted back to that record. */
  lemma WrittenFields(name: string, quantity: nat, whole: nat, fraction: string)
    requires name != [] && Strip(name) == name && AllDigits(fraction)
    ensures ParseFields(name, IntToString(quantity), PriceText(whole, fraction)) ==
      Record(Sale(name, quantity, NumeralValue(whole, fraction)))
  {
    NumeralField(quantity);
    PriceField(whole, fraction);
  }

  /** The numbers are converted before the name is looked at: a bad quantity is reported even when the name is empty. */
  lemma QuantityCheckedFirst(line: string)
    requires !AllSpace(line) && |Split(Strip(line), ',')| == 3
    requires ParseInt(Strip(Split(Strip(line), ',')[1])) == None
    ensures ParseLine(line) == Bad(InvalidFormat(NotAnInteger(Strip(Split(Strip(line), ',')[1]))))
  {
    StripEmptyIff(line);
  }

  /** The outcome of every line, in file order. */
  function Classify(lines: seq<string>): (results: seq<LineResult>)
    ensures |results| == |lines|
  {
    seq(|lines|, k requires 0 <= k < |lines| => ParseLine(lines[k]))
  }

  /** The loop over line outcomes: the records so far, or the first error, whose line number is its position
      counted from 1. */
  function Gather(results: seq<LineResult>): Result<seq<Sale>, LineError>
  {
    if results == [] then Success([])
    else
      match Gather(results[..|results| - 1])
      case Failure(e) => Failure(e)
      case Success(sales) =>
        match results[|results| - 1]
        case Blank => Success(sales)
        case Record(s) => Success(sales + [s])
        case Bad(f) => Failure(LineError(|results|, f))
  }

  /** `read_sales_data` on the lines of a file. */
  function ReadSales(lines: seq<string>): Result<seq<Sale>, LineError>
  {
    Gather(Classify(lines))
  }

  /** The records among the outcomes, in order (a reference definition, built from the front). */
  function Records(results: seq<LineResult>): seq<Sale>
  {
    if results == [] then []
    else (if results[0].Record? then [results[0].sale] else []) + Records(results[1..])
  }

  /** How many outcomes are not `Blank`. */
  function NonBlankCount(results: seq<LineResult>): nat
  {
    if results == [] then 0 else (if results[0].Blank? then 0 else 1) + NonBlankCount(results[1..])
  }

  predicate NoBad(results: seq<LineResult>)
  {
    forall k :: 0 <= k < |results| ==> !results[k].Bad?
  }

  lemma {:induction false} RecordsAppend(results: seq<LineResult>, r: LineResult)
    ensures Records(results + [r]) == Records(results) + (if r.Record? then [r.sale] else [])
  {
    if results != [] {
      assert (results + [r])[1..] == results[1..] + [r];
      RecordsAppend(results[1..], r);
    } else {
      assert Records([r]) == (if r.Record? then [r.sale] else []) + Records([]);
    }
  }

  lemma {:induction false} GatherSucceeds(results: seq<LineResult>)
    ensures Gather(results).Success? <==> NoBad(results)
  {
    if results != [] {
      var init := results[..|results| - 1];
      GatherSucceeds(init);
      if NoBad(results) {
        assert NoBad(init) by {
          forall k | 0 <= k < |init| ensures !init[k].Bad? { assert init[k] == results[k]; }
        }
      } else {
        var k :| 0 <= k < |results| && results[k].Bad?;
        if k < |init| { assert init[k] == results[k]; }
      }
    }
  }

  lemma {:induction false} GatherFails(results: seq<LineResult>)
    requires Gather(results).Failure?
    ensures var n := Gather(results).error.line;
      && 1 <= n <= |results|
      && results[n - 1] == Bad(Gather(results).error.fault)
      && NoBad(results[..n - 1])
  {
    var init := results[..|results| - 1];
    if Gather(init).Failure? {
      GatherFails(init);
      var n := Gather(init).error.line;
      assert results[n - 1] == init[n - 1];
      assert results[..n - 1] == init[..n - 1];
    } else {
      GatherSucceeds(init);
      assert results[..|results| - 1] == init;
    }
  }

  lemma {:induction false} GatherRecords(results: seq<LineResult>)
    requires Gather(results).Success?
    ensures Gather(results).value == Records(results)
  {
    if results != [] {
      var init := results[..|results| - 1];
      var last := results[|results| - 1];
      assert results == init + [last];
      GatherRecords(init);
      RecordsAppend(init, last);
    }
  }

  /** The parse succeeds exactly when no line is bad. */
  lemma ReadSalesSucceeds(lines: seq<string>)
    ensures ReadSales(lines).Success? <==> forall k :: 0 <= k < |lines| ==> !ParseLine(lines[k]).Bad?
  {
    var results := Classify(lines);
    GatherSucceeds(results);
    assert forall k :: 0 <= k < |lines| ==> results[k] == ParseLine(lines[k]);
  }

  /** A failure names the first bad line, numbered from 1 with blank lines included, and carries its fault. */
  lemma ReadSalesFails(lines: seq<string>)
    requires ReadSales(lines).Failure?
    ensures var n := ReadSales(lines).error.line;
      && 1 <= n <= |lines|
      && ParseLine(lines[n - 1]) == Bad(ReadSales(lines).error.fault)
      && forall k :: 0 <= k < n - 1 ==> !ParseLine(lines[k]).Bad?
  {
    var results := Classify(lines);
    GatherFails(results);
    var n := Gather(results).error.line;
    assert results[n - 1] == ParseLine(lines[n - 1]);
    ghost var before := results[..n - 1];
    assert NoBad(before);
    forall k | 0 <= k < n - 1 ensures !ParseLine(lines[k]).Bad? {
      assert !before[k].Bad?;
      assert before[k] == results[k];
      assert results[k] == ParseLine(lines[k]);
    }
  }

  /** A success holds the records of the record lines, in file order. */
  lemma ReadSalesRecords(lines: seq<string>)
    requires ReadSales(lines).Success?
    ensures ReadSales(lines).value == Records(Classify(lines))
  {
    GatherRecords(Classify(lines));
  }

  /** Every record among the outcomes of valid-or-blank-or-bad lines is valid. */
  lemma {:induction false} RecordsValid(results: seq<LineResult>)
    requires forall k :: 0 <= k < |results| ==> results[k].Record? ==> ValidSale(results[k].sale)
    ensures forall k :: 0 <= k < |Records(results)| ==> ValidSale(Records(results)[k])
  {
    if results != [] {
      RecordsValid(results[1..]);
    }
  }

  /** Every record of a successful parse has a non-empty stripped name and no negative number. */
  lemma RecordsAreValid(lines: seq<string>)
    requires ReadSales(lines).Success?
    ensures forall k :: 0 <= k < |ReadSales(lines).value| ==> ValidSale(ReadSales(lines).value[k])
  {
    ReadSalesRecords(lines);
    RecordsValid(Classify(lines));
  }

  lemma {:induction false} OneRecordPerOutcome(results: seq<LineResult>)
    requires NoBad(results)
    ensures |Records(results)| == NonBlankCount(results)
  {
    if results != [] {
      assert NoBad(results[1..]) by {
        forall k | 0 <= k < |results| - 1 ensures !results[1..][k].Bad? {
          assert results[1..][k] == results[k + 1];
        }
      }
      OneRecordPerOutcome(results[1..]);
    }
  }

  /** How many lines are not blank. */
  function NonBlankLines(lines: seq<string>): nat
  {
    if lines == [] then 0 else (if AllSpace(lines[0]) then 0 else 1) + NonBlankLines(lines[1..])
  }

  lemma {:induction false} NonBlankAgree(results: seq<LineResult>, lines: seq<string>)
    requires |results| == |lines|
    requires forall k :: 0 <= k < |lines| ==> (results[k].Blank? <==> AllSpace(lines[k]))
    ensures NonBlankCount(results) == NonBlankLines(lines)
  {
    if lines != [] {
      assert forall k :: 0 <= k < |lines| - 1 ==> results[1..][k] == results[k + 1] && lines[1..][k] == lines[k + 1];
      NonBlankAgree(results[1..], lines[1..]);
    }
  }

  /** A successful parse has one record per non-blank line. */
  lemma OneRecordPerLine(lines: seq<string>)
    requires ReadSales(lines).Success?
    ensures |ReadSales(lines).value| == NonBlankLines(lines)
  {
    GatherSucceeds(Classify(lines));
    GatherRecords(Classify(lines));
    OneRecordPerOutcome(Classify(lines));
    forall k | 0 <= k < |lines| ensures Classify(lines)[k].Blank? <==> AllSpace(lines[k]) {
      assert Classify(lines)[k] == ParseLine(lines[k]);
    }
    NonBlankAgree(Classify(lines), lines);
  }

  /** One turn of the loop: the outcome of line `i + 1` extends the records or ends the parse. */
  lemma GatherStep(results: seq<LineResult>, i: nat, sales: seq<Sale>)
    requires i < |results| && Gather(results[..i]) == Success(sales)
    ensures Gather(results[..i + 1]) ==
      match results[i]
      case Blank => Success(sales)
      case Record(s) => Success(sales + [s])
      case Bad(f) => Failure(LineError(i + 1, f))
  {
    assert results[..i + 1][..i] == results[..i];
  }

  /** Once a prefix has failed, the lines after it change nothing. */
  lemma {:induction false} GatherFailureStays(results: seq<LineResult>, i: nat)
    requires i <= |results| && Gather(results[..i]).Failure?
    ensures Gather(results) == Gather(results[..i])
    decreases |results|
  {
    if i < |results| {
      var init := results[..|results| - 1];
      assert init[..i] == results[..i];
      GatherFailureStays(init, i);
    } else {
      assert results[..i] == results;
    }
  }

  /** `read_sales_data`: the loop with its `line_number` counter; the first bad line aborts the whole parse. */
  method ReadSalesData(lines: seq<string>) returns (r: Result<seq<Sale>, LineError>)
    ensures r == ReadSales(lines)
  {
    ghost var results := Classify(lines);
    var salesData: seq<Sale> := [];
    var lineNumber := 0;
    while lineNumber < |lines|
      invariant 0 <= lineNumber <= |lines|
      invariant Gather(results[..lineNumber]) == Success(salesData)
    {
      var line := lines[lineNumber];
      var outcome := ParseLine(line);
      assert outcome == results[lineNumber];
      GatherStep(results, lineNumber, salesData);
      lineNumber := lineNumber + 1;
      match outcome
      case Blank =>
      case Record(s) =>
        salesData := salesData + [s];
      case Bad(f) =>
        GatherFailureStays(results, lineNumber);
        return Failure(LineError(lineNumber, f));
    }
    assert results[..lineNumber] == results;
    return Success(salesData);
  }

  /** The text of the `ValueError`; conversion errors are wrapped, so their own "Line n:" appears twice. */
  function ErrorMessage(e: LineError): (m: string)
    ensures "Line " + IntToString(e.line) + ": " <= m
  {
    var prefix := "Line " + IntToString(e.line) + ": ";
    match e.fault
    case WrongFieldCount(got) => prefix + "Expected 3 values, got " + IntToString(got)
    case InvalidFormat(reason) => prefix + "Invalid data format - " + ReasonMessage(prefix, reason)
  }

  function ReasonMessage(prefix: string, reason: Reason): string
  {
    match reason
    case NotAnInteger(text) => "invalid literal for int() with base 10: '" + text + "'"
    case NotANumber(text) => "could not convert string to float: '" + text + "'"
    case EmptyName => prefix + "Product name cannot be empty"
    case NegativeQuantity => prefix + "Quantity cannot be negative"
    case NegativePrice => prefix + "Price cannot be negative"
  }

  /** One dictionary of `process_sales_data`. */
  datatype Summary = Summary(product: string, quantity: int, pricePerUnit: real, totalSales: real)

  /** `process_sales_data`: one summary per record, in order, with its total. */
  method ProcessSalesData(sales: seq<Sale>) returns (processed: seq<Summary>)
    ensures |processed| == |sales|
    ensures forall i :: 0 <= i < |sales| ==>
      && processed[i].product == sales[i].name
      && processed[i].quantity == sales[i].quantity
      && processed[i].pricePerUnit == sales[i].price
      && processed[i].totalSales == CalculateTotal(sales[i].quantity, sales[i].price)
  {
    processed := [];
    var i := 0;
    while i < |sales|
      invariant 0 <= i <= |sales|
      invariant |processed| == i
      invariant forall j :: 0 <= j < i ==>
        processed[j] == Summary(sales[j].name, sales[j].quantity, sales[j].price, CalculateTotal(sales[j].quantity, sales[j].price))
    {
      var s := sales[i];
      var totalSales := CalculateTotal(s.quantity, s.price);
      processed := processed + [Summary(s.name, s.quantity, s.price, totalSales)];
      i := i + 1;
    }
  }

  /** The sum of the `total_sales` values. */
  function Revenue(items: seq<Summary>): real
  {
    if items == [] then 0.0 else Revenue(items[..|items| - 1]) + items[|items| - 1].totalSales
  }

  /** The sum does not depend on the direction it is taken in. */
  lemma {:induction false} RevenueCons(item: Summary, rest: seq<Summary>)
    ensures Revenue([item] + rest) == item.totalSales + Revenue(rest)
  {
    if rest != [] {
      var init := rest[..|rest| - 1];
      assert ([item] + rest)[..|rest|] == [item] + init;
      RevenueCons(item, init);
    }
  }

  /** With no negative totals the revenue is not negative, and it is at least each single total. */
  lemma {:induction false} RevenueBounds(items: seq<Summary>)
    requires forall i :: 0 <= i < |items| ==> items[i].totalSales >= 0.0
    ensures Revenue(items) >= 0.0
    ensures forall i :: 0 <= i < |items| ==> items[i].totalSales <= Revenue(items)
  {
    if items != [] {
      var init := items[..|items| - 1];
      RevenueBounds(init);
      forall i | 0 <= i < |items| ensures items[i].totalSales <= Revenue(items) {
        if i < |init| { assert items[i] == init[i]; }
      }
    }
  }

  /** The revenue of the summaries of valid records is not negative. */
  lemma ValidRevenue(sales: seq<Sale>, processed: seq<Summary>)
    requires forall i :: 0 <= i < |sales| ==> ValidSale(sales[i])
    requires |processed| == |sales|
    requires forall i :: 0 <= i < |sales| ==> processed[i].totalSales == CalculateTotal(sales[i].quantity, sales[i].price)
    ensures Revenue(processed) >= 0.0
  {
    RevenueBounds(processed);
  }

  /** The `total_revenue` accumulation of `write_sales_summary`. */
  method TotalRevenue(processed: seq<Summary>) returns (totalRevenue: real)
    ensures totalRevenue == Revenue(processed)
  {
    totalRevenue := 0.0;
    var i := 0;
    while i < |processed|
      invariant 0 <= i <= |processed|
      invariant totalRevenue == Revenue(processed[..i])
    {
      assert processed[..i + 1][..i] == processed[..i];
      totalRevenue := totalRevenue + processed[i].totalSales;
      i := i + 1;
    }
    assert processed[..i] == processed;
  }
}
