/** Field validation of the contact form (validateField): the value is
    trimmed, a required field must not be empty, and a non-empty value must
    meet the rule of its field name. */
module Validation {
  import opened Text
  import opened Email

  /** A form control: its name attribute, its required flag and its raw value. */
  datatype Field = Field(name: string, required: bool, value: string)

  /** validateField: the verdict, and the inline message shown when the
      field is invalid (empty when it is valid). */
  method ValidateField(field: Field) returns (valid: bool, errorMessage: string)
    ensures var v := Trim(field.value);
      && (field.required && v == [] ==> !valid && errorMessage == "This field is required")
      && (!field.required && v == [] ==> valid)
      && (v != [] && field.name == "name" ==> (valid <==> |v| >= 2))
      && (v != [] && field.name == "email" ==> (valid <==> IsValidEmail(v)))
      && (v != [] && field.name == "subject" ==> (valid <==> |v| >= 5))
      && (v != [] && field.name == "message" ==> (valid <==> |v| >= 10))
      && (v != [] && field.name !in {"name", "email", "subject", "message"} ==> valid)
    ensures valid <==> errorMessage == ""
    ensures !valid && field.name == "name" && Trim(field.value) != [] ==>
      errorMessage == "Name must be at least 2 characters long"
    ensures !valid && field.name == "email" && Trim(field.value) != [] ==>
      errorMessage == "Please enter a valid email address"
    ensures !valid && field.name == "subject" && Trim(field.value) != [] ==>
      errorMessage == "Subject must be at least 5 characters long"
    ensures !valid && field.name == "message" && Trim(field.value) != [] ==>
      errorMessage == "Message must be at least 10 characters long"
  {
    var value := Trim(field.value);
    assert "name" != "email" && "name" != "subject" && "name" != "message"
      && "email" != "subject" && "email" != "message" && "subject" != "message" by {
      assert "name"[0] != "email"[0] && "email"[0] != "subject"[0] && "subject"[0] != "message"[0];
    }
    var isValid := true;
    errorMessage := "";
    if field.required && value == [] {
      isValid := false;
      errorMessage := "This field is required";
    } else if value != [] {
      match field.name
      case "name" =>
        if |value| < 2 {
          isValid := false;
          errorMessage := "Name must be at least 2 characters long";
        }
      case "email" =>
        if !IsValidEmail(value) {
          isValid := false;
          errorMessage := "Please enter a valid email address";
        }
      case "subject" =>
        if |value| < 5 {
          isValid := false;
          errorMessage := "Subject must be at least 5 characters long";
        }
      case "message" =>
        if |value| < 10 {
          isValid := false;
          errorMessage := "Message must be at least 10 characters long";
        }
      case _ =>
    }
    valid := isValid || (!field.required && value == []);
  }
}
